/**
 * The records that travel through the channels (src/paquet.h) and the
 * inventory records they may carry (src/libro.h).
 */
module Packets {
  import opened Wrappers
  import opened Common

  /** struct libro: the per-copy part of a record; `state` is 'D' (available) or 'P' (lent). */
  datatype CopyInfo = CopyInfo(number: int, state: char, date: int)

  /**
   * struct ejemplar: one copy of a title. The same record type carries a
   * request (`petition`, and for renew/return the copy number in `info`).
   */
  datatype Copy = Copy(petition: int, isbn: int, copies: int, name: string, info: CopyInfo)

  /** The tagged union of paquet_t: SIGNAL, BOOK or ERR. */
  datatype Body =
    | Signal(code: int, text: string)
    | Book(copy: Copy)
    | Err(code: int)

  /** paquet_t: the PID of the client that sends or receives it, and its body. */
  datatype Packet = Packet(client: int, body: Body)

  /** One `write` of a packet on a descriptor. */
  datatype Write = Write(fd: int, packet: Packet)

  /**
   * The `signal.code` word of the union read whatever the tag is: for a book
   * body it is the first member of struct ejemplar, the request kind.
   */
  function CodeWord(b: Body): (code: int)
    ensures b.Book? ==> code == b.copy.petition
    ensures !b.Book? ==> code == b.code
  {
    match b
    case Signal(c, _) => c
    case Book(c) => c.petition
    case Err(c) => c
  }

  /** The `signal.buffer` text; bytes of other bodies are not modelled and read as empty. */
  function TextOf(b: Body): string
  {
    if b.Signal? then b.text else ""
  }

  /**
   * generateReponse: a SIGNAL packet for `dest` with `code`; the text is
   * copied only when one is given (an unset buffer is modelled as empty).
   */
  function GenerateResponse(dest: int, code: int, buffer: Option<string>): (p: Packet)
    ensures p.client == dest && p.body.Signal? && CodeWord(p.body) == code
    ensures buffer.Some? ==> TextOf(p.body) == buffer.value
    ensures buffer.None? ==> TextOf(p.body) == ""
  {
    Packet(dest, Signal(code, if buffer.Some? then buffer.value else ""))
  }
}
