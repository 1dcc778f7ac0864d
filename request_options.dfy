/** The Options record a caller fills in for one request. */
module RequestOptions {
  import opened Wrappers

  newtype byte = x: int | 0 <= x < 256

  /** A caller-supplied io.Reader; the model only tells one reader from another. */
  datatype Reader = Reader(id: nat)

  /**
    A nil io.Reader or nil byte slice is None. A nil header map behaves like an
    empty one, so it is the empty map here. MaxSizeMb is a float32 in the source;
    only its sign is read here, the byte count derived from it is an input of
    StrictRequest.
  */
  datatype Options = Options(
    allowRedirects: bool,
    allowHttpsRedirects: bool,
    allowWwwRedirects: bool,
    body: Option<Reader>,
    bodyBytes: Option<seq<byte>>,
    headers: map<string, string>,
    maxSizeMb: real,
    timeoutMs: int)

  /** `Options{}`: every field at its zero value. */
  const Default: Options := Options(false, false, false, None, None, map[], 0.0, 0)
}
