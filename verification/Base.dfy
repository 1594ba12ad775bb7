/** Vocabulary shared by the models: bytes, optional results, and lengths of byte batches. */
module Base {

  /** One octet on the wire. */
  type byte = x: int | 0 <= x < 256

  datatype Option<+T> = None | Some(value: T)

  datatype Result<+T, +E> = Ok(value: T) | Err(error: E)

  /** Total number of octets in a list of messages. */
  function Total(messages: seq<seq<byte>>): nat {
    if messages == [] then 0
    else Total(messages[..|messages| - 1]) + |messages[|messages| - 1]|
  }

  lemma TotalAppend(messages: seq<seq<byte>>, m: seq<byte>)
    ensures Total(messages + [m]) == Total(messages) + |m|
  {
    assert (messages + [m])[..|messages|] == messages;
  }
}
