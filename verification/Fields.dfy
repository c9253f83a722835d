/** Records of bit fields: how a list of widths and values is written, and read back from any position. */
module Fields {
  import opened Seqs
  import opened Bits
  import opened BitBuffers

  /** A long long passed where an unsigned int is expected. */
  function ToU32(v: int): nat {
    v % U32
  }

  /** Where field `i` starts. */
  function Pos(ws: seq<nat>, i: nat): nat
    requires i <= |ws|
  {
    if i == 0 then 0 else Pos(ws, i - 1) + ws[i - 1]
  }

  /** The fields one by one. */
  function Pieces(ws: seq<nat>, vs: seq<int>): (ps: seq<seq<bool>>)
    requires |ws| == |vs|
    ensures |ps| == |ws|
  {
    seq(|ws|, i requires 0 <= i < |ws| => Enc(ws[i], ToU32(vs[i])))
  }

  /** The record: its fields end to end. */
  function Record(ws: seq<nat>, vs: seq<int>): seq<bool>
    requires |ws| == |vs|
  {
    Flat(Pieces(ws, vs))
  }

  /** The number in the `w` bits at `pos`. */
  function At(bits: seq<bool>, pos: nat, w: nat): nat
    requires pos + w <= |bits|
  {
    Dec(bits[pos..pos + w])
  }

  /** All the fields of the record at `pos`. */
  function ReadAll(bits: seq<bool>, pos: nat, ws: seq<nat>): (vs: seq<nat>)
    requires pos + Pos(ws, |ws|) <= |bits|
    ensures |vs| == |ws|
  {
    seq(|ws|, i requires 0 <= i < |ws| => PosMono(ws, i + 1, |ws|); At(bits, pos + Pos(ws, i), ws[i]))
  }

  lemma {:induction false} PosMono(ws: seq<nat>, i: nat, j: nat)
    requires i <= j <= |ws|
    ensures Pos(ws, i) <= Pos(ws, j)
  {
    if i < j { PosMono(ws, i, j - 1); }
  }

  lemma {:induction false} PiecesLength(ws: seq<nat>, vs: seq<int>, i: nat)
    requires |ws| == |vs| && i <= |ws|
    ensures |Flat(Pieces(ws, vs)[..i])| == Pos(ws, i)
  {
    if i > 0 {
      PiecesLength(ws, vs, i - 1);
      FlatTake(Pieces(ws, vs), i - 1);
    }
  }

  lemma RecordLength(ws: seq<nat>, vs: seq<int>)
    requires |ws| == |vs|
    ensures |Record(ws, vs)| == Pos(ws, |ws|)
  {
    PiecesLength(ws, vs, |ws|);
    FlatAll(Pieces(ws, vs));
  }

  /** Reading a record back, aligned or not, returns every value modulo 2 to its width. */
  lemma ReadBack(before: seq<bool>, ws: seq<nat>, vs: seq<int>, after: seq<bool>, i: nat)
    requires |ws| == |vs| && i < |ws| && ws[i] <= 32
    ensures |Record(ws, vs)| == Pos(ws, |ws|)
    ensures ReadAll(before + Record(ws, vs) + after, |before|, ws)[i] == vs[i] % Pow2(ws[i])
  {
    hide Record, Enc, Dec, Pos, Pow2;
    RecordLength(ws, vs);
    RecordField(ws, vs, i);
    var bits, rec, p := before + Record(ws, vs) + after, Record(ws, vs), Pos(ws, i);
    assert bits[|before| + p..|before| + p + ws[i]] == rec[p..p + ws[i]];
    DecEnc(ws[i], ToU32(vs[i]));
    ModMod(vs[i], ws[i]);
  }

  /** A field of the record. */
  lemma RecordField(ws: seq<nat>, vs: seq<int>, i: nat)
    requires |ws| == |vs| && i < |ws|
    ensures Pos(ws, i) + ws[i] <= |Record(ws, vs)|
    ensures Record(ws, vs)[Pos(ws, i)..Pos(ws, i) + ws[i]] == Enc(ws[i], ToU32(vs[i]))
  {
    hide Flat, Enc, Pos;
    PiecesLength(ws, vs, i);
    FlatAt(Pieces(ws, vs), i);
  }

  lemma ModMod(v: int, w: nat)
    requires w <= 32
    ensures ToU32(v) % Pow2(w) == v % Pow2(w)
  {
    hide Pow2;
    Pow2Add(w, 32 - w);
    Pow2Values();
    ModOfMod(v, Pow2(w), Pow2(32 - w));
  }

  lemma ModOfMod(v: int, m: nat, t: nat)
    requires m > 0 && t > 0 && m * t > 0
    ensures v % (m * t) % m == v % m
  {
    var q, r := v / (m * t), v % (m * t);
    var a, b := r / m, r % m;
    assert v == q * (m * t) + r && r == a * m + b;
    assert q * (m * t) == q * t * m;
    assert (q * t + a) * m == q * t * m + a * m;
    DivModUnique(v, m, q * t + a, b);
  }

  /** Reading the record at `at` gives every value modulo 2 to its width, hence as it was when it fits. */
  ghost predicate ReadsAs(bits: seq<bool>, at: nat, ws: seq<nat>, vs: seq<int>) {
    && |ws| == |vs| && at + Pos(ws, |ws|) <= |bits|
    && (forall i :: 0 <= i < |ws| ==> ReadAll(bits, at, ws)[i] == vs[i] % Pow2(ws[i]))
    && (forall i :: 0 <= i < |ws| && 0 <= vs[i] < Pow2(ws[i]) ==> ReadAll(bits, at, ws)[i] == vs[i])
  }

  lemma RecordReads(before: seq<bool>, ws: seq<nat>, vs: seq<int>, after: seq<bool>)
    requires |ws| == |vs| && forall i :: 0 <= i < |ws| ==> ws[i] <= 32
    ensures ReadsAs(before + Record(ws, vs) + after, |before|, ws, vs)
  {
    hide Record, ReadAll, Pos;
    RecordLength(ws, vs);
    forall i | 0 <= i < |ws|
      ensures var r := ReadAll(before + Record(ws, vs) + after, |before|, ws)[i];
              r == vs[i] % Pow2(ws[i]) && (0 <= vs[i] < Pow2(ws[i]) ==> r == vs[i])
    {
      ReadBack(before, ws, vs, after, i);
      if 0 <= vs[i] < Pow2(ws[i]) { DivModUnique(vs[i], Pow2(ws[i]), 0, vs[i]); }
    }
  }

  /** Writes field `i` of a record after the fields before it. */
  method PutNext(bb: BitBuffer, w: nat, v: int, ghost ws: seq<nat>, ghost vs: seq<int>, ghost i: nat,
                 ghost bs: seq<bool>)
    requires |ws| == |vs| && i < |ws| && ws[i] == w && vs[i] == v && w <= 32
    requires bb.Wrote(bs + Flat(Pieces(ws, vs)[..i])) && bb.Room(w)
    modifies bb`index, bb.buffer
    ensures bb.Wrote(bs + Flat(Pieces(ws, vs)[..i + 1])) && bb.index == old(bb.index) + w
  {
    hide Flat;
    bb.PutField(w, ToU32(v), bs + Flat(Pieces(ws, vs)[..i]));
    FlatTake(Pieces(ws, vs), i);
    CatAssoc(bs, Flat(Pieces(ws, vs)[..i]), Enc(w, ToU32(v)));
  }

  lemma StartOf(ws: seq<nat>, at: nat)
    ensures at + Pos(ws, 0) == at
  {
  }

  /** Reads field `i` of the record at `at` after the fields before it. */
  method GetNext(bb: BitBuffer, w: nat, ghost bits: seq<bool>, ghost at: nat, ghost ws: seq<nat>, ghost i: nat)
    returns (v: nat)
    requires i < |ws| && ws[i] == w <= 32 && bb.View() == bits
    requires at + Pos(ws, |ws|) <= |bits| && bb.index == at + Pos(ws, i)
    modifies bb`index
    ensures bb.View() == bits && bb.index == at + Pos(ws, i + 1) && v == ReadAll(bits, at, ws)[i]
  {
    PosMono(ws, i + 1, |ws|);
    v := bb.GetBits(w);
  }
}
