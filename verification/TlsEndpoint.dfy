/** What both state machines share: what they wait for, and the handshake transcript. */
module TlsEndpoint {
  import opened Prelude
  import opened TlsScript

  /** The state machine goes on, or waits for the flight to be written or for something to read, or has failed. */
  datatype Wait = Ok | Flush | ReadMessage | ReadCcs | Failed

  /** The transcript, kept as a buffer until nothing can need it, and as a hash once the cipher is known. */
  datatype Hashes = Hashes(buffer: Option<Transcript>, hash: Option<Transcript>)

  function More(t: Option<Transcript>, m: Message): Option<Transcript> {
    match t case None => None case Some(ms) => Some(ms + [m])
  }

  function Update(h: Hashes, m: Message): Hashes {
    Hashes(More(h.buffer, m), More(h.hash, m))
  }

  /** The hash starts with what has been buffered. */
  function InitHash(h: Hashes): Hashes {
    Hashes(h.buffer, h.buffer)
  }

  function FreeBuffer(h: Hashes): Hashes {
    Hashes(None, h.hash)
  }

  function Hashed(h: Hashes): Transcript {
    match h.hash case Some(t) => t case None => []
  }

  /** The messages said so far, in the hash or, before there is one, in the buffer. */
  function Said(h: Hashes): Transcript {
    match h.hash case Some(t) => t case None => (match h.buffer case Some(t) => t case None => [])
  }

  /** Hashing a message adds it to what has been said; starting the hash and freeing the buffer do not change that. */
  lemma SaidUpdated(h: Hashes, m: Message)
    ensures h.hash.Some? ==>
              && Said(Update(h, m)) == Said(FreeBuffer(Update(h, m))) == Said(Update(FreeBuffer(h), m)) == Said(h) + [m]
              && Said(FreeBuffer(h)) == Said(h)
    ensures h.hash.None? && h.buffer.Some? ==>
              Said(Update(InitHash(h), m)) == Said(FreeBuffer(Update(InitHash(h), m))) == Said(h) + [m]
  {
  }

  /** The message at the front of what has arrived, if it is one. */
  function Front(inp: seq<Item>): Option<Message> {
    if inp != [] && inp[0].Handshake? then Some(inp[0].m) else None
  }

  /** What has arrived and has not been read. */
  class Channel {
    var items: seq<Item>

    constructor (items: seq<Item>)
      ensures this.items == items
    {
      this.items := items;
    }

    method GetMessage() returns (msg: Option<Message>)
      ensures msg == Front(items)
    {
      if items == [] || items[0].ChangeCipherSpec? {
        return None;
      }
      return Some(items[0].m);
    }

    method NextMessage()
      requires items != []
      modifies this
      ensures items == old(items)[1..]
    {
      items := items[1..];
    }
  }
}
