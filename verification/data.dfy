/** The records exchanged with the remote media library, and the error values
    that travel between the client, the file system and the extraction driver. */
module Data {

  type Bytes = seq<bv8>

  /** A calendar month as `time.Month` gives it: January is 1. */
  type Month = m: int | 1 <= m <= 12 witness 1

  /** The creation timestamp of an item: the calendar fields that name its
      output directory, and the instant that is written back as the file's
      modification and access time. */
  datatype Timestamp = Timestamp(year: int, month: Month, instant: int)

  datatype MediaItem = MediaItem(
    id: string,
    filename: string,
    baseUrl: string,
    mimeType: string,
    creationTime: Timestamp)

  /** One page of the listing: its items, in order, and the token of the next
      page ("" when there is none). */
  datatype MediaResponse = MediaResponse(mediaItems: seq<MediaItem>, nextPageToken: string)

  /** A Go error value: its message, and whether `errors.Is(err, context.Canceled)`
      holds of it. */
  datatype Error = Error(message: string, canceled: bool)

  /** An error built by `fmt.Errorf` or `errors.New`: it wraps nothing. */
  function Plain(message: string): Error
  {
    Error(message, false)
  }

  datatype Option<T> = None | Some(value: T)

  /** A Go `(value, error)` pair in which exactly one side is meaningful. */
  datatype Result<T> = Ok(value: T) | Fail(error: Error)
}
