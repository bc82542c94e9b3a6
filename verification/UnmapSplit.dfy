/** Aligning and splitting an UNMAP range, in 64-bit arithmetic. */
module UnmapSplit {
  import opened Common

  datatype Piece = Piece(lba: nat, len: nat)

  // ---- bitwise and ----

  function And(a: nat, b: nat): nat {
    if a == 0 || b == 0 then 0 else 2 * And(a / 2, b / 2) + (if a % 2 == 1 && b % 2 == 1 then 1 else 0)
  }

  lemma {:induction false} AndAtMost(a: nat, b: nat)
    ensures And(a, b) <= a && And(a, b) <= b
  {
    if a != 0 && b != 0 { AndAtMost(a / 2, b / 2); }
  }

  /** Masking with 2^k - 1 is the remainder by 2^k: a is q * 2^k plus the masked bits. */
  lemma {:induction false} AndMask(a: nat, k: nat) returns (q: nat)
    ensures Pow2(k) > 0 && a == q * Pow2(k) + And(a, Pow2(k) - 1) && And(a, Pow2(k) - 1) < Pow2(k)
  {
    if k == 0 {
      q := a;
    } else {
      var h := Pow2(k - 1);
      q := AndMask(a / 2, k - 1);
      assert (Pow2(k) - 1) / 2 == h - 1;
      assert q * Pow2(k) == 2 * (q * h) by { Twice(q, h); }
      if a == 0 {
        AndAtMost(a, Pow2(k) - 1);
      } else if Pow2(k) - 1 != 0 {
        assert And(a, Pow2(k) - 1) == 2 * And(a / 2, h - 1) + a % 2;
      }
    }
  }

  lemma Twice(q: nat, h: nat)
    ensures q * (2 * h) == 2 * (q * h)
  {
  }

  // ---- the cursor of the split loop ----

  /** align_and_split_unmap: next block, blocks left, and length of the next piece. */
  datatype Cursor = Cursor(lba: nat, left: nat, len: nat)

  /** The loop's entry: the first piece ends where the aligned granule does. Subtraction is modulo 2^64. */
  function Start(lba: nat, nlbas: nat, gran: nat, align: nat): Cursor {
    var mask := (align + TWO_64 - 1) % TWO_64;
    Cursor(lba, nlbas, Min((gran + TWO_64 - And(lba, mask)) % TWO_64, nlbas))
  }

  /** One round of the loop. */
  function Next(c: Cursor, gran: nat): Cursor
    requires c.len <= c.left
  {
    Cursor(c.lba + c.len, c.left - c.len, Min(gran, c.left - c.len))
  }

  /** The cursor after k rounds. */
  function After(c: Cursor, gran: nat, k: nat): (r: Cursor)
    requires c.len <= c.left
    ensures r.len <= r.left
    decreases k
  {
    if k == 0 || c.left == 0 then c else After(Next(c, gran), gran, k - 1)
  }

  lemma {:induction false} StuckAtZero(c: Cursor, k: nat)
    requires c.len == 0 < c.left
    ensures After(c, 0, k).left == c.left
  {
    if k > 0 { StuckAtZero(Next(c, 0), k - 1); }
  }

  lemma {:induction false} Finishes(c: Cursor, gran: nat) returns (k: nat)
    requires c.len <= c.left && (gran > 0 || c.len == c.left)
    ensures After(c, gran, k).left == 0
    decreases c.left, if c.len == 0 then 1 else 0
  {
    k := 0;
    if c.left > 0 {
      k := Finishes(Next(c, gran), gran);
      k := k + 1;
    }
  }

  /** The loop ends exactly when the granularity is positive or the first piece is the whole range. */
  lemma TerminatesIff(lba: nat, nlbas: nat, gran: nat, align: nat)
    ensures var c := Start(lba, nlbas, gran, align);
            (exists k: nat :: After(c, gran, k).left == 0) <==> gran > 0 || c.len == c.left
  {
    var c := Start(lba, nlbas, gran, align);
    if gran > 0 || c.len == c.left {
      var k := Finishes(c, gran);
    } else {
      forall k: nat ensures After(c, gran, k).left > 0 {
        if k > 0 { StuckAtZero(Next(c, gran), k - 1); }
      }
    }
  }

  // ---- the pieces ----

  /** The pieces from the cursor on. */
  function Pieces(c: Cursor, gran: nat): seq<Piece>
    requires c.len <= c.left && (gran > 0 || c.len == c.left)
    decreases c.left, if c.len == 0 then 1 else 0
  {
    if c.left == 0 then [] else [Piece(c.lba, c.len)] + Pieces(Next(c, gran), gran)
  }

  /** Pieces lie end to end from one block to another. */
  ghost predicate Chain(ps: seq<Piece>, from: nat, to: nat) {
    if ps == [] then from == to else ps[0].lba == from && Chain(ps[1..], from + ps[0].len, to)
  }

  lemma {:induction false} PiecesCover(c: Cursor, gran: nat)
    requires c.len <= c.left && (gran > 0 || c.len == c.left)
    ensures Chain(Pieces(c, gran), c.lba, c.lba + c.left)
    ensures forall i :: 0 < i < |Pieces(c, gran)| ==> 0 < Pieces(c, gran)[i].len <= gran
    ensures c.left > 0 ==> Pieces(c, gran) != [] && Pieces(c, gran)[0] == Piece(c.lba, c.len)
    decreases c.left, if c.len == 0 then 1 else 0
  {
    if c.left > 0 {
      var n := Next(c, gran);
      PiecesCover(n, gran);
      assert Pieces(c, gran)[1..] == Pieces(n, gran);
    }
  }

  /** Every block of a chain's range is in exactly one of its pieces. */
  lemma {:induction false} ChainIn(ps: seq<Piece>, from: nat, to: nat, x: nat)
    requires Chain(ps, from, to)
    ensures from <= to
    ensures (exists i :: 0 <= i < |ps| && ps[i].lba <= x < ps[i].lba + ps[i].len) <==> from <= x < to
  {
    if ps != [] {
      ChainIn(ps[1..], from + ps[0].len, to, x);
      assert forall i :: 0 < i < |ps| ==> ps[i] == ps[1..][i - 1];
      if exists i :: 0 <= i < |ps[1..]| && ps[1..][i].lba <= x < ps[1..][i].lba + ps[1..][i].len {
        var i :| 0 <= i < |ps[1..]| && ps[1..][i].lba <= x < ps[1..][i].lba + ps[1..][i].len;
        assert ps[i + 1] == ps[1..][i];
      }
    }
  }

  lemma {:induction false} ChainOrdered(ps: seq<Piece>, from: nat, to: nat)
    requires Chain(ps, from, to)
    ensures forall i, j :: 0 <= i < j < |ps| ==> ps[i].lba + ps[i].len <= ps[j].lba
    ensures forall i :: 0 <= i < |ps| ==> from <= ps[i].lba && ps[i].lba + ps[i].len <= to
  {
    if ps != [] {
      ChainIn(ps[1..], from + ps[0].len, to, 0);
      ChainOrdered(ps[1..], from + ps[0].len, to);
      assert forall i :: 0 < i < |ps| ==> ps[i] == ps[1..][i - 1];
    }
  }

  // ---- aligned splitting ----

  /** A piece lies within one granule. */
  predicate InGranule(p: Piece, gran: nat)
    requires gran > 0
  {
    0 < p.len && p.lba % gran + p.len <= gran
  }

  /** Past the first piece the cursor is on a granule boundary. */
  lemma {:induction false} AlignedPieces(c: Cursor, gran: nat, q: nat)
    requires 0 < gran && c.lba == q * gran && c.len == Min(gran, c.left)
    ensures forall i :: 0 <= i < |Pieces(c, gran)| ==> InGranule(Pieces(c, gran)[i], gran)
    decreases c.left
  {
    if c.left > 0 {
      var n := Next(c, gran);
      Quotient(c.lba, q, 0, gran);
      if n.left > 0 {
        assert n.lba == (q + 1) * gran;
        AlignedPieces(n, gran, q + 1);
      }
    }
  }

  /** With the alignment equal to the granularity and a power of two, every piece is non-empty and lies
      within one granule. */
  lemma NoPieceCrosses(lba: nat, nlbas: nat, gran: nat, k: nat)
    requires lba < TWO_64 && 0 < gran == Pow2(k) && gran < TWO_32
    ensures forall i :: 0 <= i < |Pieces(Start(lba, nlbas, gran, gran), gran)| ==>
              InGranule(Pieces(Start(lba, nlbas, gran, gran), gran)[i], gran)
  {
    hide Pow2, And;
    var q := AndMask(lba, k);
    var r := And(lba, gran - 1);
    StartAligned(lba, nlbas, gran, r);
    var c := Start(lba, nlbas, gran, gran);
    Quotient(lba, q, r, gran);
    if nlbas > 0 {
      var n := Next(c, gran);
      if n.left > 0 {
        assert n.lba == (q + 1) * gran;
        AlignedPieces(n, gran, q + 1);
      }
      assert Pieces(c, gran) == [Piece(c.lba, c.len)] + Pieces(n, gran);
    }
  }

  lemma StartAligned(lba: nat, nlbas: nat, gran: nat, r: nat)
    requires 0 < gran < TWO_32 && r == And(lba, gran - 1) && r < gran
    ensures Start(lba, nlbas, gran, gran) == Cursor(lba, nlbas, Min(gran - r, nlbas))
  {
    hide And;
    assert (gran + TWO_64 - 1) % TWO_64 == gran - 1;
  }

  /** The first piece of a range, for a power of two as the alignment: up to where the granule ends that starts
      at the boundary before it, and the whole range if that is before its start. */
  lemma FirstPiece(lba: nat, nlbas: nat, gran: nat, k: nat)
    requires nlbas < TWO_32 && 0 < gran < TWO_32 && Pow2(k) < TWO_32
    ensures var r := lba % Pow2(k);
            Start(lba, nlbas, gran, Pow2(k)) == Cursor(lba, nlbas, if r <= gran then Min(gran - r, nlbas) else nlbas)
  {
    hide And, Pow2;
    var q := AndMask(lba, k);
    Quotient(lba, q, And(lba, Pow2(k) - 1), Pow2(k));
    MaskOf(Pow2(k));
    var r := And(lba, Pow2(k) - 1);
    assert r <= gran ==> (gran + TWO_64 - r) % TWO_64 == gran - r;
    assert r > gran ==> (gran + TWO_64 - r) % TWO_64 == gran + TWO_64 - r;
  }

  lemma MaskOf(align: nat)
    requires 0 < align < TWO_32
    ensures (align + TWO_64 - 1) % TWO_64 == align - 1
  {
  }

  /** All pieces but the first and the last are of the granularity, and the last is not longer. */
  lemma {:induction false} PieceSizes(c: Cursor, gran: nat, k: nat)
    requires c.len <= c.left && gran > 0 && k < |Pieces(c, gran)|
    ensures var ps := Pieces(c, gran);
            if k == 0 then ps[k].len == c.len
            else if k < |ps| - 1 then ps[k].len == gran
            else 0 < ps[k].len <= gran
    decreases k
  {
    if k > 0 {
      var n := Next(c, gran);
      PieceSizes(n, gran, k - 1);
      if k == 1 && |Pieces(c, gran)| > 2 { LastShort(n, gran); }
    }
  }

  /** A piece shorter than the granularity is the last. */
  lemma LastShort(c: Cursor, gran: nat)
    requires gran > 0 && c.len == Min(gran, c.left) && |Pieces(c, gran)| > 1
    ensures c.len == gran
  {
  }

  /** Pieces that lie end to end lie between the ends. */
  lemma {:induction false} ChainWithin(ps: seq<Piece>, from: nat, to: nat, k: nat)
    requires Chain(ps, from, to) && k < |ps|
    ensures from <= ps[k].lba && ps[k].lba + ps[k].len <= to
  {
    ChainEnds(ps[1..], from + ps[0].len, to);
    if k > 0 { ChainWithin(ps[1..], from + ps[0].len, to, k - 1); }
  }

  lemma {:induction false} ChainEnds(ps: seq<Piece>, from: nat, to: nat)
    requires Chain(ps, from, to)
    ensures from <= to
  {
    if ps != [] { ChainEnds(ps[1..], from + ps[0].len, to); }
  }
}
