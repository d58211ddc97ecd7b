/** The manga record a source hands to the app (`SManga`): the fields a
    source fills in, the "original" values a stored manga keeps beside the
    user's edits, the merge of fresh source data into a stored record
    (`copyFrom`), and the conversion to and from the source API's `MangaInfo`. */
module SMangaModel {
  import opened Text

  // Publication status codes.
  const UNKNOWN: int := 0
  const ONGOING: int := 1
  const COMPLETED: int := 2
  const LICENSED: int := 3
  const PUBLISHING_FINISHED: int := 4
  const CANCELLED: int := 5
  const ON_HIATUS: int := 6

  /** The ", " that separates genres in the single `genre` text. */
  const GenreSeparator: string := ", "

  /** The source API's manga record: every text present, genres as a list. */
  datatype MangaInfo = MangaInfo(key: string, title: string, artist: string, author: string,
                                 description: string, genres: seq<string>, status: int,
                                 cover: string)

  /** A field of `copyFrom`: when the other record has a value (`incoming`),
      the field takes `replacement`; otherwise it keeps `current`. */
  function Merged<T>(incoming: Option<T>, replacement: Option<T>, current: Option<T>): Option<T>
  {
    if incoming.Some? then replacement else current
  }

  class SManga {
    var url: string
    var title: string
    var artist: Option<string>
    var author: Option<string>
    var description: Option<string>
    var genre: Option<string>
    var status: int
    var thumbnailUrl: Option<string>
    var initialized: bool
    /** The values a stored manga (`MangaImpl`) keeps from its source beneath
        the user's custom edits; `None` when there is none, and always `None`
        for a record that is not a stored manga. */
    var ogTitle: Option<string>
    var ogAuthor: Option<string>
    var ogArtist: Option<string>
    var ogDesc: Option<string>
    var ogGenre: Option<string>
    var ogStatus: Option<int>

    /** `SManga.create()`: a blank record, no original values. */
    constructor()
      ensures url == "" && title == "" && status == UNKNOWN && !initialized
      ensures artist == None && author == None && description == None
      ensures genre == None && thumbnailUrl == None
      ensures ogTitle == None && ogAuthor == None && ogArtist == None
      ensures ogDesc == None && ogGenre == None && ogStatus == None
    {
      url := "";
      title := "";
      artist := None;
      author := None;
      description := None;
      genre := None;
      status := UNKNOWN;
      thumbnailUrl := None;
      initialized := false;
      ogTitle := None;
      ogAuthor := None;
      ogArtist := None;
      ogDesc := None;
      ogGenre := None;
      ogStatus := None;
    }

    function OriginalTitle(): (r: string)
      reads this`ogTitle, this`title
      ensures ogTitle.None? ==> r == title
      ensures ogTitle.Some? ==> r == ogTitle.value
    {
      if ogTitle.Some? then ogTitle.value else title
    }

    function OriginalAuthor(): (r: Option<string>)
      reads this`ogAuthor, this`author
      ensures author.Some? ==> r.Some?
      ensures ogAuthor.None? ==> r == author
      ensures ogAuthor.Some? ==> r == ogAuthor
    {
      if ogAuthor.Some? then ogAuthor else author
    }

    function OriginalArtist(): (r: Option<string>)
      reads this`ogArtist, this`artist
      ensures artist.Some? ==> r.Some?
      ensures ogArtist.None? ==> r == artist
      ensures ogArtist.Some? ==> r == ogArtist
    {
      if ogArtist.Some? then ogArtist else artist
    }

    function OriginalDescription(): (r: Option<string>)
      reads this`ogDesc, this`description
      ensures description.Some? ==> r.Some?
      ensures ogDesc.None? ==> r == description
      ensures ogDesc.Some? ==> r == ogDesc
    {
      if ogDesc.Some? then ogDesc else description
    }

    function OriginalGenre(): (r: Option<string>)
      reads this`ogGenre, this`genre
      ensures genre.Some? ==> r.Some?
      ensures ogGenre.None? ==> r == genre
      ensures ogGenre.Some? ==> r == ogGenre
    {
      if ogGenre.Some? then ogGenre else genre
    }

    function OriginalStatus(): (r: int)
      reads this`ogStatus, this`status
      ensures ogStatus.None? ==> r == status
      ensures ogStatus.Some? ==> r == ogStatus.value
    {
      if ogStatus.Some? then ogStatus.value else status
    }

    /** Merges fresh data from `other` into this record: a text field is
        taken (as the other's original value) only when the other has one,
        the cover only when the other has one, the status always; the record
        never becomes uninitialised, and (by the frame) keeps its url, title
        and original values. `other` may be this very record. */
    method CopyFrom(other: SManga)
      modifies this`author, this`artist, this`description, this`genre
      modifies this`thumbnailUrl, this`status, this`initialized
      ensures author == Merged(old(other.author), old(other.OriginalAuthor()), old(author))
      ensures artist == Merged(old(other.artist), old(other.OriginalArtist()), old(artist))
      ensures description == Merged(old(other.description), old(other.OriginalDescription()), old(description))
      ensures genre == Merged(old(other.genre), old(other.OriginalGenre()), old(genre))
      ensures thumbnailUrl == Merged(old(other.thumbnailUrl), old(other.thumbnailUrl), old(thumbnailUrl))
      ensures status == old(other.OriginalStatus())
      ensures initialized == (old(initialized) || old(other.initialized))
    {
      // Each step of the merge reads only fields no earlier step wrote, so
      // reading them all first is the same even when `other` is this record.
      var otherAuthor, otherArtist := other.author, other.artist;
      var otherDescription, otherGenre := other.description, other.genre;
      var originalAuthor, originalArtist := other.OriginalAuthor(), other.OriginalArtist();
      var originalDescription, originalGenre := other.OriginalDescription(), other.OriginalGenre();
      var otherThumbnail, originalStatus := other.thumbnailUrl, other.OriginalStatus();
      var otherInitialized := other.initialized;
      author := Merged(otherAuthor, originalAuthor, author);
      artist := Merged(otherArtist, originalArtist, artist);
      description := Merged(otherDescription, originalDescription, description);
      genre := Merged(otherGenre, originalGenre, genre);
      thumbnailUrl := Merged(otherThumbnail, otherThumbnail, thumbnailUrl);
      status := originalStatus;
      initialized := if initialized then initialized else otherInitialized;
    }

    /** `toMangaInfo`: a missing text becomes "", the genre text is cut at
        every ", ", and a missing genre gives no genres at all. */
    function ToMangaInfo(): (r: MangaInfo)
      reads this
      ensures r.key == url && r.title == title && r.status == status
      ensures r.artist == (if artist.Some? then artist.value else "")
      ensures r.author == (if author.Some? then author.value else "")
      ensures r.description == (if description.Some? then description.value else "")
      ensures r.cover == (if thumbnailUrl.Some? then thumbnailUrl.value else "")
      ensures genre.None? <==> r.genres == []
      ensures genre.Some? ==> Join(r.genres, GenreSeparator) == genre.value
    {
      var genres := if genre.Some? then Split(genre.value, GenreSeparator) else [];
      assert genre.Some? ==> Join(genres, GenreSeparator) == genre.value by {
        if genre.Some? { JoinSplit(genre.value, GenreSeparator); }
      }
      MangaInfo(url, title,
                if artist.Some? then artist.value else "",
                if author.Some? then author.value else "",
                if description.Some? then description.value else "",
                genres, status,
                if thumbnailUrl.Some? then thumbnailUrl.value else "")
    }
  }

  /** `toSManga`: a fresh record holding every field of `info`, the genres
      joined with ", ". */
  method ToSManga(info: MangaInfo) returns (m: SManga)
    ensures fresh(m)
    ensures m.url == info.key && m.title == info.title && m.status == info.status
    ensures m.artist == Some(info.artist) && m.author == Some(info.author)
    ensures m.description == Some(info.description) && m.thumbnailUrl == Some(info.cover)
    ensures m.genre == Some(Join(info.genres, GenreSeparator))
    ensures !m.initialized
    ensures m.ogTitle == None && m.ogAuthor == None && m.ogArtist == None
    ensures m.ogDesc == None && m.ogGenre == None && m.ogStatus == None
  {
    m := new SManga();
    m.url := info.key;
    m.title := info.title;
    m.artist := Some(info.artist);
    m.author := Some(info.author);
    m.description := Some(info.description);
    m.genre := Some(Join(info.genres, GenreSeparator));
    m.status := info.status;
    m.thumbnailUrl := Some(info.cover);
  }

  /** Through `MangaInfo` and back: url, title and status survive, a present
      genre text comes back as it was, and every other text comes back
      present (a missing one as ""). */
  method RoundTrip(m: SManga) returns (n: SManga)
    ensures fresh(n)
    ensures n.url == m.url && n.title == m.title && n.status == m.status
    ensures m.genre.Some? ==> n.genre == m.genre
    ensures m.genre.None? ==> n.genre == Some("")
    ensures m.artist.Some? ==> n.artist == m.artist
    ensures m.author.Some? ==> n.author == m.author
    ensures m.description.Some? ==> n.description == m.description
    ensures m.thumbnailUrl.Some? ==> n.thumbnailUrl == m.thumbnailUrl
    ensures n.artist.Some? && n.author.Some? && n.description.Some? && n.thumbnailUrl.Some?
  {
    var info := m.ToMangaInfo();
    n := ToSManga(info);
  }
}
