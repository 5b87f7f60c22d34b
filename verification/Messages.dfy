/** Bytes and posted messages: the immutable values every component passes around. */
module Messages {

  newtype byte = x: int | 0 <= x < 256

  /** A posted message. `Tcp_message` copies the caller's bytes when it is built and never
      changes them, so a message is the sequence of bytes given to `Post`. */
  type Message = seq<byte>
}
