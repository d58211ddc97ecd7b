/** The cover fetcher of the image loader (`MangaFetcher`): it decides from
    the text of a manga's `thumbnail_url` whether the cover is a local file,
    a web address, or a custom cover the user set, and loads it accordingly.
    The cover cache's files, the disk hash of a key and the network are
    outside the model: whether a cover file exists and the hash are
    parameters, and a load is described by where it reads the image from. */
module Coil {
  import opened Text

  /** Where a cover comes from. */
  datatype ResourceType = File | Custom | Url

  /** What a fetch reads: a file named by the cover text, the cached cover
      file of a url, or a url downloaded into its cover file first. */
  datatype FetchResult = DiskFile(path: string) | CachedCover(url: string) | Downloaded(url: string)

  const HTTP_PREFIX: string := "http"
  const CUSTOM_PREFIX: string := "Custom-"
  const FILE_PREFIX: string := "file://"

  /** Kotlin's `Char.isWhitespace`: Java's whitespace characters and the
      Unicode space, line and paragraph separators. */
  predicate IsWhitespace(c: char)
  {
    var n := c as int;
    (0x09 <= n <= 0x0D) || (0x1C <= n <= 0x20) || n == 0xA0 || n == 0x1680 ||
    (0x2000 <= n <= 0x200A) || n == 0x2028 || n == 0x2029 || n == 0x202F || n == 0x205F ||
    n == 0x3000
  }

  /** `isNullOrBlank`. */
  predicate IsNullOrBlank(s: Option<string>)
    // an empty text is blank; a text with a visible first character is not
    ensures s == Some("") ==> IsNullOrBlank(s)
    ensures s.Some? && |s.value| > 0 && !IsWhitespace(s.value[0]) ==> !IsNullOrBlank(s)
  {
    s.None? || forall k :: 0 <= k < |s.value| ==> IsWhitespace(s.value[k])
  }

  /** `key`: no cache key for a missing or blank cover, otherwise the disk
      hash of the cover text. */
  function Key(thumbnailUrl: Option<string>, hashKeyForDisk: string -> string): (r: Option<string>)
    ensures r.None? <==> IsNullOrBlank(thumbnailUrl)
    ensures r.Some? ==> r.value == hashKeyForDisk(thumbnailUrl.value)
  {
    if IsNullOrBlank(thumbnailUrl) then None else Some(hashKeyForDisk(thumbnailUrl.value))
  }

  /** `getResourceType`: the first prefix that matches, checked in the
      order "http", "Custom-", then "/" or "file://"; none for a missing or
      empty cover or any other text. */
  function GetResourceType(cover: Option<string>): (r: Option<ResourceType>)
    ensures cover.None? || cover.value == [] ==> r.None?
    ensures r.Some? ==> cover.Some?
  {
    if cover.None? || cover.value == [] then None
    else if StartsWith(cover.value, HTTP_PREFIX) then Some(Url)
    else if StartsWith(cover.value, CUSTOM_PREFIX) then Some(Custom)
    else if StartsWith(cover.value, "/") || StartsWith(cover.value, FILE_PREFIX) then Some(File)
    else None
  }

  /** The four prefixes start with different characters, so the order of
      the tests does not matter: each type is recognised by its own prefix
      alone. */
  lemma ResourceTypeByPrefix(cover: string)
    ensures GetResourceType(Some(cover)) == Some(Url) <==> StartsWith(cover, HTTP_PREFIX)
    ensures GetResourceType(Some(cover)) == Some(Custom) <==> StartsWith(cover, CUSTOM_PREFIX)
    ensures GetResourceType(Some(cover)) == Some(File) <==>
      StartsWith(cover, "/") || StartsWith(cover, FILE_PREFIX)
    ensures GetResourceType(Some(cover)).None? <==>
      !StartsWith(cover, HTTP_PREFIX) && !StartsWith(cover, CUSTOM_PREFIX) &&
      !StartsWith(cover, "/") && !StartsWith(cover, FILE_PREFIX)
  {
    if cover != [] {
      assert StartsWith(cover, HTTP_PREFIX) ==> cover[0] == 'h';
      assert StartsWith(cover, CUSTOM_PREFIX) ==> cover[0] == 'C';
      assert StartsWith(cover, "/") ==> cover[0] == '/';
      assert StartsWith(cover, FILE_PREFIX) ==> cover[0] == 'f';
    }
  }

  /** `fileLoader(manga)`: the file named by the text after the first
      "file://", or by the whole text when it holds none. */
  function FilePath(cover: string): (r: string)
    // the path is a tail of the cover text
    ensures |r| <= |cover| && r == cover[|cover| - |r|..]
  {
    SubstringAfter(cover, FILE_PREFIX)
  }

  /** A "file://" cover names the path after the scheme; a bare path is
      taken as it is unless it holds "file://" somewhere inside. */
  lemma FilePathOf(cover: string)
    ensures StartsWith(cover, FILE_PREFIX) ==> FilePath(cover) == cover[|FILE_PREFIX|..]
    ensures !Contains(cover, FILE_PREFIX) ==> FilePath(cover) == cover
  {
    if StartsWith(cover, FILE_PREFIX) {
      SubstringAfterPrefix(cover, FILE_PREFIX);
    }
  }

  /** `httpLoader`: the cached cover file when it exists, otherwise a
      download of the url into it. */
  function HttpLoad(cover: string, coverExists: string -> bool): (r: FetchResult)
    ensures r.CachedCover? <==> coverExists(cover)
    ensures r.CachedCover? || r.Downloaded?
    ensures (r.CachedCover? && r.url == cover) || (r.Downloaded? && r.url == cover)
  {
    if coverExists(cover) then CachedCover(cover) else Downloaded(cover)
  }

  /** The fields of a manga the fetcher reads and writes. */
  class Manga {
    var thumbnailUrl: Option<string>

    constructor(thumbnailUrl: Option<string>)
      ensures this.thumbnailUrl == thumbnailUrl
    {
      this.thumbnailUrl := thumbnailUrl;
    }
  }

  /** `customLoader`: a custom cover already in the cache is read from it;
      otherwise the manga's cover becomes the text after "Custom-" and is
      loaded as a url. */
  method CustomLoader(manga: Manga, coverExists: string -> bool) returns (r: FetchResult)
    requires manga.thumbnailUrl.Some?
    modifies manga
    ensures coverExists(old(manga.thumbnailUrl.value)) ==>
      r == CachedCover(old(manga.thumbnailUrl.value)) && manga.thumbnailUrl == old(manga.thumbnailUrl)
    ensures !coverExists(old(manga.thumbnailUrl.value)) ==>
      manga.thumbnailUrl == Some(SubstringAfter(old(manga.thumbnailUrl.value), CUSTOM_PREFIX)) &&
      r == HttpLoad(manga.thumbnailUrl.value, coverExists)
  {
    var cover := manga.thumbnailUrl.value;
    if coverExists(cover) {
      return CachedCover(cover);
    }
    manga.thumbnailUrl := Some(SubstringAfter(manga.thumbnailUrl.value, CUSTOM_PREFIX));
    r := HttpLoad(manga.thumbnailUrl.value, coverExists);
  }

  /** `fetch`: "Invalid image" exactly when the cover has no type; a file
      cover is read from its path, a url through the cache, and a custom
      cover through `CustomLoader`, the only case that changes the manga. */
  method Fetch(manga: Manga, coverExists: string -> bool) returns (r: Result<FetchResult>)
    modifies manga
    ensures r.Err? <==> GetResourceType(old(manga.thumbnailUrl)).None?
    ensures GetResourceType(old(manga.thumbnailUrl)) == Some(File) ==>
      r == Ok(DiskFile(FilePath(old(manga.thumbnailUrl).value)))
    ensures GetResourceType(old(manga.thumbnailUrl)) == Some(Url) ==>
      r == Ok(HttpLoad(old(manga.thumbnailUrl).value, coverExists))
    ensures GetResourceType(old(manga.thumbnailUrl)) != Some(Custom) ==>
      manga.thumbnailUrl == old(manga.thumbnailUrl)
    ensures GetResourceType(old(manga.thumbnailUrl)) == Some(Custom) ==>
      var cover := old(manga.thumbnailUrl).value;
      if coverExists(cover) then
        r == Ok(CachedCover(cover)) && manga.thumbnailUrl == old(manga.thumbnailUrl)
      else
        manga.thumbnailUrl == Some(cover[|CUSTOM_PREFIX|..]) &&
        r == Ok(HttpLoad(cover[|CUSTOM_PREFIX|..], coverExists))
  {
    var cover := manga.thumbnailUrl;
    var kind := GetResourceType(cover);
    match kind {
      case Some(File) =>
        r := Ok(DiskFile(FilePath(manga.thumbnailUrl.value)));
      case Some(Url) =>
        r := Ok(HttpLoad(manga.thumbnailUrl.value, coverExists));
      case Some(Custom) =>
        SubstringAfterPrefix(cover.value, CUSTOM_PREFIX);
        var loaded := CustomLoader(manga, coverExists);
        r := Ok(loaded);
      case None =>
        r := Err("Invalid image");
    }
  }
}
