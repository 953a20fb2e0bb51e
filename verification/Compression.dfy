/** zlib as a pair of functions; that the second undoes the first is an assumption of the laws. */
module Compression {
  import opened Options
  import opened Machine

  datatype Zlib = Zlib(compress: seq<byte> -> seq<byte>, decompress: seq<byte> -> Option<seq<byte>>)

  ghost predicate IsInverse(z: Zlib) { forall d :: z.decompress(z.compress(d)) == Some(d) }
}
