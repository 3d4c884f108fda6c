/** Copying bytes, for memmove into pages and blocks. */
module Bytes {
  type Byte = b: nat | b < 0x100

  /** `row` with `ch` copied over it at offset `o`. */
  function Splice<T>(row: seq<T>, o: nat, ch: seq<T>): (r: seq<T>)
    requires o + |ch| <= |row|
    ensures |r| == |row| && forall i :: 0 <= i < |r| ==> r[i] == if o <= i < o + |ch| then ch[i - o] else row[i]
  {
    row[..o] + ch + row[o + |ch|..]
  }
}
