/** WRITE SAME and FORMAT UNIT as chains of writes, each started from the callback of the one before. */
module Compound {
  import opened Common

  const STS_OK := 0
  const STS_WR_ERR := 4

  /** Contents of one logical block; 0 is the block of zeros. */
  type Block = nat

  /** One write of a chain as its environment decides it: the status the handler reports, what a failed
      write leaves in its range, and whether the write after it can be queued. */
  datatype Write = Write(status: int, torn: seq<Block>, queued: bool)

  /** The blocks one write of a chain covers. */
  datatype Chunk = Chunk(lba: nat, len: nat)

  // ---- the size of a chunk ----

  /** The transfer limit in bytes, as the product of two 32-bit words. */
  function MaxBytes(limit: nat, blockSize: nat): nat { limit * blockSize % TWO_32 }

  /** 1 MiB rounded up to the transfer limit; a limit of zero bytes is a division by zero. */
  function ChunkBytes(maxBytes: nat): Option<nat> {
    if maxBytes == 0 then None else Some((0x10_0000 + maxBytes - 1) / maxBytes * maxBytes)
  }

  /** For a block size of 2^k the chunk is a positive number of whole blocks, the least multiple of the limit
      that is not below 1 MiB, unless 2^(32 - k) divides the limit; then the limit in bytes has wrapped to
      zero. */
  lemma ChunkWhole(limit: nat, k: nat) returns (blocks: nat)
    requires k <= 32
    ensures MaxBytes(limit, Pow2(k)) == 0 <==> limit % Pow2(32 - k) == 0
    ensures if limit % Pow2(32 - k) == 0 then ChunkBytes(MaxBytes(limit, Pow2(k))) == None
            else
              && blocks > 0 && ChunkBytes(MaxBytes(limit, Pow2(k))) == Some(blocks * Pow2(k))
              && blocks * Pow2(k) % MaxBytes(limit, Pow2(k)) == 0
              && 0x10_0000 <= blocks * Pow2(k) < 0x10_0000 + MaxBytes(limit, Pow2(k))
  {
    hide Pow2;
    var b, p := Pow2(k), Pow2(32 - k);
    var q, r := limit / p, limit % p;
    Pow2Sum(32 - k, k);
    assert Pow2(32) == TWO_32 by { Word(); }
    assert limit * b == q * TWO_32 + r * b by { Split(limit, b, p, q, r); }
    assert r * b < TWO_32 by { MulLe(r + 1, p, b); assert (r + 1) * b == r * b + b; }
    Quotient(limit * b, q, r * b, TWO_32);
    blocks := 0;
    if r > 0 {
      MulLe(1, r, b);
      var m := r * b;
      var n := (0x10_0000 + m - 1) / m;
      RoundUp(0x10_0000, m);
      blocks := n * r;
      assert n * m == blocks * b by { Assoc(n, r, b); }
      MulLe(1, n, r);
      Quotient(n * m, n, 0, m);
    }
  }

  lemma {:induction false} Pow2Sum(a: nat, b: nat)
    ensures Pow2(a) * Pow2(b) == Pow2(a + b)
  {
    if a > 0 {
      Pow2Sum(a - 1, b);
      Assoc(2, Pow2(a - 1), Pow2(b));
    }
  }

  lemma Word()
    ensures Pow2(32) == TWO_32
  {
    assert Pow2(8) == 0x100;
    Pow2Sum(8, 8);
    Pow2Sum(16, 16);
  }

  lemma Split(limit: nat, b: nat, p: nat, q: nat, r: nat)
    requires limit == q * p + r
    ensures limit * b == q * (p * b) + r * b
  {
    Assoc(q, p, b);
  }

  lemma RoundUp(a: nat, m: nat)
    requires a > 0 && m > 0
    ensures (a + m - 1) / m >= 1 && a <= (a + m - 1) / m * m < a + m
  {
    var x := a + m - 1;
    Euclid(x, m);
  }

  lemma Assoc(a: nat, b: nat, c: nat)
    ensures a * (b * c) == (a * b) * c
  {
  }

  // ---- chunks end to end ----

  function Total(ws: seq<Chunk>): nat {
    if ws == [] then 0 else Total(ws[..|ws| - 1]) + ws[|ws| - 1].len
  }

  /** Each chunk starts where those before it end, and is of the chunk size or what is left. */
  ghost predicate Tiles(ws: seq<Chunk>, start: nat, chunk: nat, end: nat) {
    forall k :: 0 <= k < |ws| ==> TileAt(ws, k, start, chunk, end)
  }

  ghost predicate TileAt(ws: seq<Chunk>, k: nat, start: nat, chunk: nat, end: nat)
    requires k < |ws|
  {
    ws[k].lba == start + Total(ws[..k]) && ws[k].lba < end && ws[k].len == Min(chunk, end - ws[k].lba)
  }

  lemma TotalAppend(ws: seq<Chunk>, w: Chunk)
    ensures Total(ws + [w]) == Total(ws) + w.len && Total([]) == 0
  {
    assert (ws + [w])[..|ws|] == ws;
  }

  lemma TilesAppend(ws: seq<Chunk>, start: nat, chunk: nat, end: nat)
    requires Tiles(ws, start, chunk, end) && start + Total(ws) < end
    ensures var at := start + Total(ws); Tiles(ws + [Chunk(at, Min(chunk, end - at))], start, chunk, end)
  {
    hide Total;
    var at := start + Total(ws);
    var more := ws + [Chunk(at, Min(chunk, end - at))];
    forall k | 0 <= k < |more| ensures TileAt(more, k, start, chunk, end) {
      assert more[..k] == ws[..k];
      if k < |ws| {
        assert TileAt(ws, k, start, chunk, end);
      } else {
        assert ws[..k] == ws;
      }
    }
  }

  lemma TilesLess(ws: seq<Chunk>, start: nat, chunk: nat, end: nat)
    requires Tiles(ws, start, chunk, end) && ws != []
    ensures Tiles(ws[..|ws| - 1], start, chunk, end)
  {
    hide Total;
    var less := ws[..|ws| - 1];
    forall k | 0 <= k < |less| ensures TileAt(less, k, start, chunk, end) {
      assert less[..k] == ws[..k];
      assert TileAt(ws, k, start, chunk, end);
    }
  }

  /** Chunks that tile a range lie in order without overlap, and together hold exactly its blocks. */
  lemma TiledOnce(ws: seq<Chunk>, start: nat, chunk: nat, end: nat)
    requires Tiles(ws, start, chunk, end)
    ensures ws != [] ==> start + Total(ws) <= end
    ensures forall j, k :: 0 <= j < k < |ws| ==> ws[j].lba + ws[j].len <= ws[k].lba
    ensures forall b: nat :: start <= b < start + Total(ws) <==> InSome(ws, b)
  {
    if ws != [] {
      assert TileAt(ws, |ws| - 1, start, chunk, end);
      TotalAppend(ws[..|ws| - 1], ws[|ws| - 1]);
    }
    forall j, k | 0 <= j < k < |ws| ensures ws[j].lba + ws[j].len <= ws[k].lba {
      assert TileAt(ws, j, start, chunk, end) && TileAt(ws, k, start, chunk, end);
      TotalUpTo(ws, j, k);
    }
    forall b: nat ensures start <= b < start + Total(ws) <==> InSome(ws, b) { TiledBlock(ws, start, chunk, end, b); }
  }

  lemma {:induction false} TiledBlock(ws: seq<Chunk>, start: nat, chunk: nat, end: nat, b: nat)
    requires Tiles(ws, start, chunk, end)
    ensures start <= b < start + Total(ws) <==> InSome(ws, b)
  {
    if ws != [] {
      var n := |ws| - 1;
      assert TileAt(ws, n, start, chunk, end);
      TilesLess(ws, start, chunk, end);
      TiledBlock(ws[..n], start, chunk, end, b);
      hide Tiles, Total;
      TotalAppend(ws[..n], ws[n]);
      assert ws[..n] + [ws[n]] == ws;
      InMore(ws[..n], ws[n], b);
    }
  }

  lemma InMore(ws: seq<Chunk>, w: Chunk, b: nat)
    ensures InSome(ws + [w], b) <==> InSome(ws, b) || w.lba <= b < w.lba + w.len
  {
    var more := ws + [w];
    if InSome(ws, b) {
      var k :| 0 <= k < |ws| && ws[k].lba <= b < ws[k].lba + ws[k].len;
      assert more[k] == ws[k];
    }
    assert more[|ws|] == w;
  }

  predicate InSome(ws: seq<Chunk>, b: nat) {
    exists k :: 0 <= k < |ws| && ws[k].lba <= b < ws[k].lba + ws[k].len
  }

  lemma {:induction false} TotalUpTo(ws: seq<Chunk>, j: nat, k: nat)
    requires j < k <= |ws|
    ensures Total(ws[..j]) + ws[j].len <= Total(ws[..k])
  {
    assert ws[..k][..k - 1] == ws[..k - 1];
    if j < k - 1 { TotalUpTo(ws, j, k - 1); }
  }

  // ---- the medium ----

  predicate Filled(s: seq<Block>, from: nat, to: nat, x: Block) {
    forall k :: from <= k < to && k < |s| ==> s[k] == x
  }

  /** Nothing outside [from, to) has changed. */
  predicate Outside(s: seq<Block>, t: seq<Block>, from: nat, to: nat) {
    |s| == |t| && forall k :: 0 <= k < |s| && !(from <= k < to) ==> t[k] == s[k]
  }

  /** The write succeeded, or what it left in its n blocks is x. */
  predicate Clean(w: Write, n: nat, x: Block) {
    w.status == STS_OK || forall i :: 0 <= i < n && i < |w.torn| ==> w.torn[i] == x
  }

  /** A handler's write of n blocks of x: on failure the range holds whatever the failed write left. */
  function Written(s: seq<Block>, at: nat, n: nat, x: Block, w: Write): (t: seq<Block>)
    requires at + n <= |s|
    ensures Outside(s, t, at, at + n) && (Filled(t, at, at + n, x) <==> Clean(w, n, x))
  {
    var t := s[..at] + seq(n, i requires 0 <= i < n => Left(w, x, i)) + s[at + n..];
    assert w.status != STS_OK ==> forall i :: 0 <= i < n && i < |w.torn| ==> t[at + i] == w.torn[i];
    t
  }

  function Left(w: Write, x: Block, i: nat): Block {
    if w.status == STS_OK || i >= |w.torn| then x else w.torn[i]
  }

  lemma OutsideTwice(s: seq<Block>, t: seq<Block>, u: seq<Block>, from: nat, mid: nat, to: nat, end: nat)
    requires Outside(s, t, from, end) && Outside(t, u, mid, to) && from <= mid <= to <= end
    ensures Outside(s, u, from, end)
  {
  }

  lemma FilledOn(t: seq<Block>, u: seq<Block>, from: nat, mid: nat, to: nat, x: Block)
    requires Outside(t, u, mid, to) && from <= mid <= to
    ensures Filled(u, from, mid, x) <==> Filled(t, from, mid, x)
    ensures Filled(u, from, to, x) <==> Filled(u, from, mid, x) && Filled(u, mid, to, x)
  {
    assert forall k :: from <= k < mid && k < |t| ==> t[k] == u[k];
  }

  lemma Nothing(s: seq<Block>, start: nat, end: nat, chunk: nat, x: Block)
    ensures Outside(s, s, start, end) && Filled(s, start, start, x) && Tiles([], start, chunk, end) && Total([]) == 0
  {
  }

  // ---- WRITE SAME ----

  class WriteSame {
    var curLba: nat
    var lbaCnt: nat
    var writeLbas: nat      // iov_len in blocks
    var store: seq<Block>
    const pattern: Block
    ghost var writes: seq<Chunk>

    ghost predicate Valid()
      reads this
    {
      0 < writeLbas <= lbaCnt && curLba + lbaCnt <= |store|
    }

    /** handle_writesame, after its checks */
    constructor (start: nat, cnt: nat, chunk: nat, x: Block, s: seq<Block>)
      requires 0 < cnt && start + cnt <= |s| && 0 < chunk
      ensures Valid() && curLba == start && lbaCnt == cnt && store == s && pattern == x && writes == []
      ensures writeLbas == Min(chunk, cnt)
    {
      curLba, lbaCnt, writeLbas, pattern, store, writes := start, cnt, Min(chunk, cnt), x, s, [];
    }

    /** writesame_work_fn: one write of the current chunk, which then holds the pattern exactly if the write
        was clean; no other block changes. */
    method WorkFn(w: Write)
      requires Valid()
      modifies this`store, this`writes
      ensures Valid() && Outside(old(store), store, curLba, curLba + writeLbas)
      ensures Filled(store, curLba, curLba + writeLbas, pattern) <==> Clean(w, writeLbas, pattern)
      ensures writes == old(writes) + [Chunk(curLba, writeLbas)]
    {
      store := Written(store, curLba, writeLbas, pattern, w);
      writes := writes + [Chunk(curLba, writeLbas)];
    }

    /** handle_writesame_cbk: the status to finish the command with, or none when the next write is
        queued. */
    method Callback(ret: int, queued: bool) returns (finish: Option<int>)
      requires Valid()
      modifies this`curLba, this`lbaCnt, this`writeLbas
      ensures ret != STS_OK ==> finish == Some(ret) && curLba == old(curLba) && lbaCnt == old(lbaCnt)
      ensures ret == STS_OK ==> curLba == old(curLba + writeLbas) && lbaCnt == old(lbaCnt - writeLbas)
      ensures ret == STS_OK && lbaCnt == 0 ==> finish == Some(STS_OK)
      ensures ret == STS_OK && lbaCnt > 0 ==> Valid() && finish == if queued then None else Some(STS_WR_ERR)
      ensures ret == STS_OK && lbaCnt > 0 ==> writeLbas == Min(old(writeLbas), lbaCnt)
    {
      if ret != STS_OK { return Some(ret); }
      curLba := curLba + writeLbas;
      lbaCnt := lbaCnt - writeLbas;
      if lbaCnt == 0 { return Some(ret); }
      if lbaCnt <= writeLbas { writeLbas := lbaCnt; }
      if !queued { return Some(STS_WR_ERR); }
      return None;
    }

    /** The chain of writes and callbacks to its end, with the environment's k-th choice for the k-th
        write. The writes tile the range from its start; nothing outside it is touched. The command
        succeeds exactly when every write did and could be queued, and then the writes cover the whole
        range and every block of it is the pattern; otherwise those before the failed one do. */
    method Chain(env: nat -> Write) returns (status: int)
      requires Valid() && writes == []
      modifies this
      ensures writes != [] && Tiles(writes, old(curLba), old(writeLbas), old(curLba + lbaCnt))
      ensures var last := env(|writes| - 1).status == STS_OK;
              curLba == old(curLba) + Total(if last then writes else writes[..|writes| - 1])
      ensures Outside(old(store), store, old(curLba), old(curLba + lbaCnt))
      ensures curLba <= old(curLba + lbaCnt) <= |store| && Filled(store, old(curLba), curLba, pattern)
      ensures status == STS_OK <==> curLba == old(curLba + lbaCnt) && env(|writes| - 1).status == STS_OK
      ensures forall k :: 0 <= k < |writes| - 1 ==> env(k).status == STS_OK && env(k).queued
      ensures status != STS_OK ==>
                if env(|writes| - 1).status != STS_OK then status == env(|writes| - 1).status
                else status == STS_WR_ERR && !env(|writes| - 1).queued
    {
      hide Filled, Outside, Clean, Tiles, Total;
      ghost var start, end, chunk, s0 := curLba, curLba + lbaCnt, writeLbas, store;
      Nothing(store, start, end, chunk, pattern);
      var k := 0;
      while true
        invariant Valid() && k == |writes| && curLba == start + Total(writes) && curLba + lbaCnt == end
        invariant writeLbas == Min(chunk, lbaCnt) && Tiles(writes, start, chunk, end)
        invariant Outside(s0, store, start, end) && Filled(store, start, curLba, pattern)
        invariant forall j :: 0 <= j < k ==> env(j).status == STS_OK && env(j).queued
        decreases lbaCnt
      {
        ghost var s, ws, at, n := store, writes, curLba, writeLbas;
        var w := env(k);
        WorkFn(w);
        k := k + 1;
        OutsideTwice(s0, s, store, start, at, at + n, end);
        FilledOn(s, store, start, at, at + n, pattern);
        OkIsClean(w, n, pattern);
        TilesAppend(ws, start, chunk, end);
        TotalAppend(ws, Chunk(at, n));
        assert writes[..k - 1] == ws;
        var finish := Callback(w.status, w.queued);
        if finish.Some? { return finish.value; }
      }
    }
  }

  // ---- FORMAT UNIT ----

  /** done_blocks, 32 bits wide, and the chunk length after one callback on a device of num blocks. */
  function Round(num: nat, done: nat, len: nat): (nat, nat) {
    var next := (done + len) % TWO_32;
    (next, if next < num && num - next < len then num - next else len)
  }

  /** struct format_unit_state, in blocks. */
  class FormatUnit {
    const numLbas: nat
    var length: nat
    var offset: nat
    var doneBlocks: nat
    var store: seq<Block>
    ghost var writes: seq<Chunk>

    /** The command is under way. */
    ghost predicate Formatting()
      reads this
    {
      0 < length && doneBlocks < TWO_32 && doneBlocks + length <= numLbas
    }

    /** And the count has not wrapped. */
    ghost predicate Valid()
      reads this
    {
      Formatting() && offset == doneBlocks && numLbas < TWO_32 && numLbas <= |store|
    }

    /** handle_format_unit, for a device of at least one block */
    constructor (num: nat, chunk: nat, s: seq<Block>)
      requires 0 < num && 0 < chunk
      ensures Formatting() && (doneBlocks, length) == Rounds(num, chunk, 0)
      ensures offset == 0 && numLbas == num && store == s && writes == []
      ensures num < TWO_32 && num <= |s| ==> Valid()
    {
      numLbas, length, offset, doneBlocks := num, if num < chunk then num else chunk, 0, 0;
      store, writes := s, [];
    }

    /** format_unit_work_fn: one write of the current chunk, which is then zero exactly if the write was
        clean; no other block changes. */
    method WorkFn(w: Write)
      requires Valid()
      modifies this`store, this`writes
      ensures Valid() && Outside(old(store), store, offset, offset + length)
      ensures Filled(store, offset, offset + length, 0) <==> Clean(w, length, 0)
      ensures writes == old(writes) + [Chunk(offset, length)]
    {
      store := Written(store, offset, length, 0, w);
      writes := writes + [Chunk(offset, length)];
    }

    /** handle_format_unit_cbk, on a device of any size: it goes on to the next chunk whatever the last one
        reported, and ends when the 32-bit count is the device size, which needs one below 2^32. */
    method Callback(ret: int, queued: bool) returns (finish: Option<int>)
      requires Formatting()
      modifies this`length, this`offset, this`doneBlocks
      ensures (doneBlocks, length) == old(Round(numLbas, doneBlocks, length)) && offset == old(offset + length)
      ensures doneBlocks == numLbas ==> finish == Some(ret) && numLbas < TWO_32
      ensures doneBlocks != numLbas ==> Formatting() && finish == if queued then None else Some(STS_WR_ERR)
      ensures old(Valid()) ==> offset == doneBlocks <= numLbas
      ensures old(Valid()) && offset < numLbas ==> Valid() && length == Min(old(length), numLbas - offset)
    {
      offset := offset + length;
      doneBlocks := (doneBlocks + length) % TWO_32;
      if doneBlocks == numLbas { return Some(ret); }
      if numLbas - doneBlocks < length { length := numLbas - doneBlocks; }
      if !queued { return Some(STS_WR_ERR); }
      return None;
    }

    /** The chain to its end: the writes tile the device, up to one after which the next cannot be queued.
        Otherwise the command reports what the last write reported; and each chunk, so all of what was
        written, is zero exactly when every write succeeded or left zeros. So OK is reported over a
        device that is not zeroed when, and only when, an earlier write failed and left something
        else. */
    method Chain(env: nat -> Write) returns (status: int)
      requires Valid() && offset == 0 && writes == []
      modifies this
      ensures writes != [] && Tiles(writes, 0, old(length), numLbas) && Total(writes) == offset <= numLbas
      ensures Outside(old(store), store, 0, offset)
      ensures forall k :: 0 <= k < |writes| - 1 ==> env(k).queued
      ensures status == if offset == numLbas then env(|writes| - 1).status else STS_WR_ERR
      ensures offset < numLbas ==> !env(|writes| - 1).queued
      ensures EachAsLeft(store, writes, env) && (Filled(store, 0, offset, 0) <==> AllClean(writes, env))
    {
      hide Filled, Outside, Clean, Tiles, Total;
      ghost var chunk, s0 := length, store;
      Nothing(store, 0, 0, chunk, 0);
      Nothing(store, 0, numLbas, chunk, 0);
      var k := 0;
      while true
        invariant Valid() && k == |writes| && Outside(s0, store, 0, offset) && Total(writes) == offset
        invariant length == Min(chunk, numLbas - offset) && Tiles(writes, 0, chunk, numLbas)
        invariant forall j :: 0 <= j < k ==> env(j).queued
        invariant EachAsLeft(store, writes, env) && (Filled(store, 0, offset, 0) <==> AllClean(writes, env))
        decreases numLbas - offset
      {
        ghost var s, ws, at, n := store, writes, offset, length;
        var w := env(k);
        WorkFn(w);
        k := k + 1;
        OneMore(s0, s, store, ws, env, chunk, at, n, numLbas);
        var finish := Callback(w.status, w.queued);
        if finish.Some? { return finish.value; }
      }
    }
  }

  /** Each chunk written is zero exactly when its write was clean. */
  ghost predicate EachAsLeft(s: seq<Block>, ws: seq<Chunk>, env: nat -> Write) {
    forall k :: 0 <= k < |ws| ==> (Filled(s, ws[k].lba, ws[k].lba + ws[k].len, 0) <==> Clean(env(k), ws[k].len, 0))
  }

  ghost predicate AllClean(ws: seq<Chunk>, env: nat -> Write) {
    forall k :: 0 <= k < |ws| ==> Clean(env(k), ws[k].len, 0)
  }

  /** One more write keeps that account, and the account of the whole. */
  lemma OneMore(s0: seq<Block>, s: seq<Block>, t: seq<Block>, ws: seq<Chunk>, env: nat -> Write, chunk: nat,
                at: nat, n: nat, end: nat)
    requires Outside(s0, s, 0, at) && Outside(s, t, at, at + n)
    requires EachAsLeft(s, ws, env) && (Filled(s, 0, at, 0) <==> AllClean(ws, env))
    requires Tiles(ws, 0, chunk, end) && Total(ws) == at < end && n == Min(chunk, end - at)
    requires Filled(t, at, at + n, 0) <==> Clean(env(|ws|), n, 0)
    ensures var more := ws + [Chunk(at, n)];
            && Tiles(more, 0, chunk, end) && Total(more) == at + n && Outside(s0, t, 0, at + n)
            && EachAsLeft(t, more, env) && (Filled(t, 0, at + n, 0) <==> AllClean(more, env))
  {
    hide Filled, Outside, Clean, Tiles, Total, EachAsLeft, AllClean;
    TilesAppend(ws, 0, chunk, end);
    TotalAppend(ws, Chunk(at, n));
    FilledOn(s, t, 0, at, at + n, 0);
    OutsideGrows(s0, s, at, n);
    OutsideTwice(s0, s, t, 0, at, at + n, at + n);
    EachGrows(s, t, ws, env, chunk, at, n, end);
    AllGrows(ws, env, Chunk(at, n));
  }

  lemma EachGrows(s: seq<Block>, t: seq<Block>, ws: seq<Chunk>, env: nat -> Write, chunk: nat,
                  at: nat, n: nat, end: nat)
    requires Outside(s, t, at, at + n) && EachAsLeft(s, ws, env) && Tiles(ws, 0, chunk, end) && Total(ws) == at
    requires Filled(t, at, at + n, 0) <==> Clean(env(|ws|), n, 0)
    ensures EachAsLeft(t, ws + [Chunk(at, n)], env)
  {
    hide Filled, Outside, Clean, Tiles, Total;
    var more := ws + [Chunk(at, n)];
    forall k | 0 <= k < |more|
      ensures Filled(t, more[k].lba, more[k].lba + more[k].len, 0) <==> Clean(env(k), more[k].len, 0)
    {
      if k < |ws| {
        EndsBefore(ws, chunk, end, k);
        FilledBelow(s, t, ws[k].lba, ws[k].lba + ws[k].len, at, at + n);
      }
    }
  }

  lemma AllGrows(ws: seq<Chunk>, env: nat -> Write, w: Chunk)
    ensures AllClean(ws + [w], env) <==> AllClean(ws, env) && Clean(env(|ws|), w.len, 0)
  {
    hide Clean;
    var more := ws + [w];
    assert more[|ws|] == w && forall k :: 0 <= k < |ws| ==> more[k] == ws[k];
  }

  lemma OutsideGrows(s: seq<Block>, t: seq<Block>, at: nat, n: nat)
    requires Outside(s, t, 0, at)
    ensures Outside(s, t, 0, at + n)
  {
  }

  lemma FilledBelow(s: seq<Block>, t: seq<Block>, from: nat, to: nat, at: nat, end: nat)
    requires Outside(s, t, at, end) && to <= at
    ensures Filled(t, from, to, 0) <==> Filled(s, from, to, 0)
  {
    assert forall k :: from <= k < to && k < |s| ==> t[k] == s[k];
  }

  lemma EndsBefore(ws: seq<Chunk>, chunk: nat, end: nat, k: nat)
    requires Tiles(ws, 0, chunk, end) && k < |ws|
    ensures ws[k].lba + ws[k].len <= Total(ws)
  {
    assert TileAt(ws, k, 0, chunk, end);
    TotalUpTo(ws, k, |ws|);
    assert ws[..|ws|] == ws;
  }

  lemma OkIsClean(w: Write, n: nat, x: Block)
    ensures w.status == STS_OK ==> Clean(w, n, x)
  {
  }

  /** FORMAT UNIT reporting OK over blocks that are not zero, on every device of more than one chunk: the
      first write fails and leaves its blocks as they were, and all others succeed. */
  method ErrorForgotten(num: nat, chunk: nat) returns (status: int, unit: FormatUnit)
    requires 0 < chunk < num < TWO_32
    ensures status == STS_OK && unit.numLbas == |unit.store| == num && !Filled(unit.store, 0, chunk, 0)
  {
    var torn := seq(chunk, _ => 7);
    var env := (k: nat) => if k == 0 then Write(STS_WR_ERR, torn, true) else Write(STS_OK, [], true);
    unit := new FormatUnit(num, chunk, seq(num, _ => 7));
    status := unit.Chain(env);
    assert env(0).torn[0] == 7 && TileAt(unit.writes, 0, 0, chunk, num);
    assert unit.writes[..1] == [unit.writes[0]] && Total(unit.writes[..1][..0]) == 0;
  }

  // ---- devices of 2^32 blocks or more ----

  /** done_blocks and the chunk length after a number of callbacks. */
  function Rounds(num: nat, chunk: nat, rounds: nat): (nat, nat) {
    if rounds == 0 then (0, if num < chunk then num else chunk)
    else
      var (done, len) := Rounds(num, chunk, rounds - 1);
      Round(num, done, len)
  }

  /** On a device of 2^32 blocks or more the 32-bit count never reaches the size, so no callback ends the
      command; on a smaller one some callback does. */
  lemma FormatEndsIff(num: nat, chunk: nat)
    requires 0 < num && 0 < chunk
    ensures (exists r: nat :: Rounds(num, chunk, r).0 == num) <==> num < TWO_32
  {
    if num < TWO_32 {
      var r := RoundsReach(num, chunk, 0);
    } else {
      forall r: nat ensures Rounds(num, chunk, r).0 < num { RoundsBelow(num, chunk, r); }
    }
  }

  lemma RoundsBelow(num: nat, chunk: nat, r: nat)
    requires TWO_32 <= num
    ensures Rounds(num, chunk, r).0 < num
  {
  }

  lemma {:induction false} RoundsReach(num: nat, chunk: nat, r: nat) returns (end: nat)
    requires 0 < num < TWO_32 && 0 < chunk
    requires Rounds(num, chunk, r).0 < num
    requires var (done, len) := Rounds(num, chunk, r); 0 < len <= num - done
    ensures Rounds(num, chunk, end).0 == num
    decreases num - Rounds(num, chunk, r).0
  {
    var (done, len) := Rounds(num, chunk, r);
    assert Rounds(num, chunk, r + 1) == Round(num, done, len);
    end := r + 1;
    if done + len < num { end := RoundsReach(num, chunk, r + 1); }
  }
}
