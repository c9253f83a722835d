/** A compressor as the builder and the readers see it, and the one that stores data as it is. */
module Compressors {
  import opened Seqs
  import opened Bits

  /**
    Both calls take a source and the size of the destination. `compress` may fail; `uncompress`
    answers what it wrote.
   */
  datatype Compressor = Compressor(
    ctype: nat,
    compress: (seq<byte>, nat) -> Option<seq<byte>>,
    uncompress: (seq<byte>, nat) -> Option<seq<byte>>)

  /** Uncompressing what compressing wrote gives the source back, and nothing overruns its destination. */
  ghost predicate Lawful(c: Compressor) {
    && (forall x: seq<byte>, y: seq<byte> :: c.compress(x, 2 * |x|) == Some(y) ==> c.uncompress(y, |x|) == Some(x))
    && (forall y: seq<byte>, n: nat :: c.uncompress(y, n).Some? ==> |c.uncompress(y, n).value| <= n)
  }

  function NoneCopy(src: seq<byte>, dsize: nat): Option<seq<byte>> {
    if dsize < |src| then None else Some(src)
  }

  /** compressor "none": type 0x00, both calls copy. */
  function NoneCompressor(): Compressor {
    Compressor(0, NoneCopy, NoneCopy)
  }

  /** The law is satisfiable: storing data unchanged obeys it, and never fails within its space. */
  lemma NoneLawful()
    ensures Lawful(NoneCompressor()) && NoneCompressor().ctype == 0
    ensures forall x: seq<byte> :: NoneCompressor().compress(x, 2 * |x|) == Some(x)
  {
  }

  /** What a worker accepts: a result no longer than the block itself. */
  function Squeeze(c: Compressor, x: seq<byte>): (r: Option<seq<byte>>)
    ensures r.Some? ==> |r.value| <= |x|
  {
    match c.compress(x, 2 * |x|)
    case None => None
    case Some(y) => if |y| > |x| then None else Some(y)
  }

  /** The table as a single thread would fill it, block by block. */
  function SqueezeAll(blocks: seq<seq<byte>>, c: Compressor): (r: Option<seq<seq<byte>>>)
    ensures r.Some? <==> forall b :: 0 <= b < |blocks| ==> Squeeze(c, blocks[b]).Some?
    ensures r.Some? ==> |r.value| == |blocks| && forall b :: 0 <= b < |blocks| ==>
              Squeeze(c, blocks[b]) == Some(r.value[b])
  {
    if blocks == [] then Some([])
    else
      var last := Squeeze(c, blocks[|blocks| - 1]);
      var init := SqueezeAll(blocks[..|blocks| - 1], c);
      if init.Some? && last.Some? then Some(init.value + [last.value]) else None
  }
}
