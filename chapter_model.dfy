/** The chapter record as the chapter utilities, the notification actions and
    the chapter list read it: the fields they consult, as values. */
module ChapterModel {

  datatype Chapter = Chapter(
    url: string,
    scanlator: string,
    read: bool,
    /** Position in the source's own listing. */
    sourceOrder: int,
    /** `chapter_number`, a `Float` in the app, read here as an exact real. */
    chapterNumber: real,
    dateUpload: int)
}
