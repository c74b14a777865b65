/** Values shared by the piece pipeline. */
module Types {
  newtype byte = x: int | 0 <= x < 256
  type Bytes = seq<byte>

  /** One piece of one torrent. */
  datatype Key = Key(torrent: string, piece: int)

  datatype Option<+T> = None | Some(value: T)

  type Hash = string
}
