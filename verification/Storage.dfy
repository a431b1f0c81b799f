/**
 * The local block storage and its tree of sums (client/storage.c). Each saved
 * block is counted in one cell of every level; a level's cells are kept 256 to a
 * file. Levels are numbered like the STORAGE_DIR macros: level 3 has cells of
 * 2^16 time units, level 0 of 2^40.
 */
module Storage {
  import opened Common

  const TIMES: nat := 0x1_0000_0000_0000
  const BLOCK_SIZE: nat := 512

  datatype Block = Block(time: nat, words: seq<nat>)

  datatype Sum = Sum(sum: nat, size: nat)

  const ZERO := Sum(0, 0)

  function Plus(a: Sum, b: Sum): Sum { Sum((a.sum + b.sum) % WORD, (a.size + b.size) % WORD) }

  /** The cell width of a level. */
  function Width(level: nat): (n: nat)
    requires level < 4
    ensures n > 0
  {
    if level == 3 then 0x1_0000 else if level == 2 then 0x100_0000 else if level == 1 then 0x1_0000_0000 else 0x100_0000_0000
  }

  // ---------------------------------------------------------------- what sums mean

  function WordSum(words: seq<nat>): nat {
    if words == [] then 0 else (WordSum(words[..|words| - 1]) + words[|words| - 1]) % WORD
  }

  function Single(b: Block): Sum { Sum(WordSum(b.words), BLOCK_SIZE) }

  predicate Within(b: Block, lo: nat, hi: nat) { lo <= b.time < hi }

  /** What a block contributes to the interval [lo, hi). */
  function Part(b: Block, lo: nat, hi: nat): Sum { if Within(b, lo, hi) then Single(b) else ZERO }

  /** Size and word sum of the logged blocks with time in [lo, hi). */
  function Tally(log: seq<Block>, lo: nat, hi: nat): Sum {
    if log == [] then ZERO
    else Plus(Tally(log[..|log| - 1], lo, hi), Part(log[|log| - 1], lo, hi))
  }

  predicate IsSum(s: Sum) { s.sum < WORD && s.size < WORD }

  /** Word sums are sums modulo 2^64, in whatever pieces the words come. */
  lemma {:induction false} WordSumJoin(a: seq<nat>, b: seq<nat>)
    ensures WordSum(a + b) == (WordSum(a) + WordSum(b)) % WORD
  {
    hide WordSum;
    WordSumEmpty();
    if b == [] {
      assert a + b == a;
      WordSumBound(a);
    } else {
      var n := |b| - 1;
      assert a + b == (a + b[..n]) + [b[n]] && b == b[..n] + [b[n]];
      WordSumSnoc(a + b[..n], b[n]);
      WordSumSnoc(b[..n], b[n]);
      WordSumJoin(a, b[..n]);
      SumShift(WordSum(a), WordSum(b[..n]), b[n]);
    }
  }

  lemma {:induction false} WordSumSnoc(a: seq<nat>, w: nat)
    ensures WordSum(a + [w]) == (WordSum(a) + w) % WORD
  {
    assert (a + [w])[..|a|] == a;
  }

  lemma {:induction false} WordSumOne(w: nat)
    ensures WordSum([w]) == w % WORD
  {
    assert [w][..0] == [];
  }

  lemma {:induction false} SumShift(x: nat, y: nat, w: nat)
    ensures ((x + y) % WORD + w) % WORD == (x + (y + w) % WORD) % WORD
  {
    var p, q := (x + y) / WORD, (y + w) / WORD;
    assert (x + y) % WORD + w == x + y + w - p * WORD;
    assert x + (y + w) % WORD == x + y + w - q * WORD;
    Drop(x + y + w, p);
    Drop(x + y + w, q);
  }

  lemma {:induction false} Drop(a: int, k: int)
    ensures (a - k * WORD) % WORD == a % WORD
  {}

  lemma {:induction false} WordSumBound(words: seq<nat>)
    ensures WordSum(words) < WORD
  {}

  lemma {:induction false} TallyIsSum(log: seq<Block>, lo: nat, hi: nat)
    ensures IsSum(Tally(log, lo, hi))
  {}

  lemma {:induction false} PlusLaws(a: Sum, b: Sum, c: Sum, d: Sum)
    ensures Plus(Plus(a, b), Plus(c, d)) == Plus(Plus(a, c), Plus(b, d))
  {
    ModSum(a.sum, b.sum, c.sum, d.sum);
    ModSum(a.size, b.size, c.size, d.size);
  }

  lemma {:induction false} PlusZero(a: Sum)
    requires IsSum(a)
    ensures Plus(a, ZERO) == a && Plus(ZERO, a) == a
  {}

  lemma {:induction false} ModSum(a: nat, b: nat, c: nat, d: nat)
    ensures ((a + b) % WORD + (c + d) % WORD) % WORD == ((a + c) % WORD + (b + d) % WORD) % WORD
  {
    ModPair(a + b, c + d);
    ModPair(a + c, b + d);
  }

  lemma {:induction false} ModPair(x: nat, y: nat)
    ensures (x % WORD + y % WORD) % WORD == (x + y) % WORD
  {}

  /** Sums of adjacent intervals add up. */
  lemma {:induction false} TallySplit(log: seq<Block>, lo: nat, mid: nat, hi: nat)
    requires lo <= mid <= hi
    ensures Tally(log, lo, hi) == Plus(Tally(log, lo, mid), Tally(log, mid, hi))
  {
    if log != [] {
      var rest, b := log[..|log| - 1], log[|log| - 1];
      TallySplit(rest, lo, mid, hi);
      var x, y := Tally(rest, lo, mid), Tally(rest, mid, hi);
      var p, q := Part(b, lo, mid), Part(b, mid, hi);
      TallyIsSum(rest, lo, mid);
      WordSumBound(b.words);
      PlusLaws(x, y, p, q);
      PlusZero(p);
      PlusZero(q);
    }
  }

  lemma {:induction false} TallyEmpty(log: seq<Block>, lo: nat)
    ensures Tally(log, lo, lo) == ZERO
  {
    if log != [] {
      TallyEmpty(log[..|log| - 1], lo);
    }
  }

  lemma {:induction false} TallySnoc(log: seq<Block>, b: Block, lo: nat, hi: nat)
    ensures Tally(log + [b], lo, hi) == if Within(b, lo, hi) then Plus(Tally(log, lo, hi), Single(b)) else Tally(log, lo, hi)
  {
    var all := log + [b];
    assert all[..|all| - 1] == log;
    TallyIsSum(log, lo, hi);
    PlusZero(Tally(log, lo, hi));
  }

  // ---------------------------------------------------------------- the sum files

  type Files = map<(nat, nat), seq<Sum>>

  function Blank(): (s: seq<Sum>)
    ensures |s| == 256 && forall i :: 0 <= i < 256 ==> s[i] == ZERO
  {
    seq(256, _ => ZERO)
  }

  /** A file's contents; a missing file reads as zeros. */
  function FileAt(files: Files, level: nat, dir: nat): seq<Sum> {
    if (level, dir) in files then files[(level, dir)] else Blank()
  }

  ghost predicate WellSized(files: Files) {
    forall k :: k in files ==> |files[k]| == 256
  }

  /** Every cell of every level holds the sum of exactly the blocks in it. */
  ghost predicate Exact(files: Files, log: seq<Block>) {
    WellSized(files) && forall level :: 0 <= level < 4 ==> LevelExact(files, log, level)
  }

  ghost predicate LevelExact(files: Files, log: seq<Block>, level: nat)
    requires WellSized(files) && level < 4
  {
    forall dir: nat, pos: nat :: pos < 256 ==> CellExact(files, log, level, dir, pos)
  }

  ghost predicate CellExact(files: Files, log: seq<Block>, level: nat, dir: nat, pos: nat)
    requires WellSized(files) && level < 4 && pos < 256
  {
    FileAt(files, level, dir)[pos] == CellSum(log, level, dir, pos)
  }

  /** What the cell at `pos` of directory `dir` has to count. */
  ghost function CellSum(log: seq<Block>, level: nat, dir: nat, pos: nat): Sum
    requires level < 4
  {
    Tally(log, (256 * dir + pos) * Width(level), (256 * dir + pos + 1) * Width(level))
  }

  /** Directory and position of the cell that counts time `t`. */
  function Dir(level: nat, t: nat): nat
    requires level < 4
  {
    if level == 3 then t / 0x100_0000 else if level == 2 then t / 0x1_0000_0000 else if level == 1 then t / 0x100_0000_0000 else 0
  }

  function Pos(level: nat, t: nat): (p: nat)
    requires level < 4
    ensures p < 256
  {
    if level == 3 then (t / 0x1_0000) % 256 else if level == 2 then (t / 0x100_0000) % 256
    else if level == 1 then (t / 0x1_0000_0000) % 256 else (t / 0x100_0000_0000) % 256
  }

  lemma {:induction false} CellOf(level: nat, t: nat, dir: nat, pos: nat)
    requires level < 4 && pos < 256 && t < TIMES
    ensures (256 * dir + pos) * Width(level) <= t < (256 * dir + pos + 1) * Width(level) <==> dir == Dir(level, t) && pos == Pos(level, t)
  {
    hide Width;
    var c := t / Width(level);
    DivCell(t, Width(level), 256 * dir + pos);
    DirPos(level, t);
    assert 256 * dir + pos == c <==> dir == c / 256 && pos == c % 256;
  }

  lemma {:induction false} DirPos(level: nat, t: nat)
    requires level < 4 && t < TIMES
    ensures Dir(level, t) == t / Width(level) / 256 && Pos(level, t) == t / Width(level) % 256
  {}

  lemma {:induction false} DivCell(t: nat, n: nat, c: nat)
    requires n > 0
    ensures c * n <= t < (c + 1) * n <==> c == t / n
  {
    var q := t / n;
    assert t == q * n + t % n && 0 <= t % n < n;
    if c * n <= t < (c + 1) * n {
      if c < q { MulMono(c + 1, q, n); }
      if q < c { MulMono(q + 1, c, n); }
    }
  }

  /** A block counts in one cell of a level only. */
  lemma {:induction false} CellTally(log: seq<Block>, b: Block, level: nat, dir: nat, pos: nat)
    requires level < 4 && pos < 256 && b.time < TIMES
    ensures CellSum(log + [b], level, dir, pos) == if dir == Dir(level, b.time) && pos == Pos(level, b.time)
            then Plus(CellSum(log, level, dir, pos), Single(b)) else CellSum(log, level, dir, pos)
  {
    hide Tally, Width, Plus, Single, Dir, Pos;
    TallySnoc(log, b, (256 * dir + pos) * Width(level), (256 * dir + pos + 1) * Width(level));
    CellOf(level, b.time, dir, pos);
  }

  /** Adding a block's sum to its cell of a level brings that level up to date and touches no other. */
  lemma {:induction false} LevelCounts(files: Files, log: seq<Block>, b: Block, level: nat)
    requires level < 4 && WellSized(files) && LevelExact(files, log, level) && b.time < TIMES
    ensures var f := FileAt(files, level, Dir(level, b.time));
      var p := Pos(level, b.time);
      var g := files[(level, Dir(level, b.time)) := f[p := Plus(f[p], Single(b))]];
      && WellSized(g) && LevelExact(g, log + [b], level)
      && forall l: nat, any :: l < 4 && l != level && LevelExact(files, any, l) ==> LevelExact(g, any, l)
  {
    hide CellSum, Plus, Single, Dir, Pos;
    var d, p := Dir(level, b.time), Pos(level, b.time);
    var f := FileAt(files, level, d);
    var g := files[(level, d) := f[p := Plus(f[p], Single(b))]];
    forall dir: nat, pos: nat | pos < 256 ensures CellExact(g, log + [b], level, dir, pos) {
      assert CellExact(files, log, level, dir, pos);
      CellTally(log, b, level, dir, pos);
    }
    forall l: nat, any, dir: nat, pos: nat | l < 4 && l != level && pos < 256 && CellExact(files, any, l, dir, pos)
      ensures CellExact(g, any, l, dir, pos) {}
  }

  class Store {
    var log: seq<Block>     // the blocks saved, in order
    var files: Files

    ghost predicate Valid()
      reads this
    {
      Exact(files, log) && forall i :: 0 <= i < |log| ==> log[i].time < TIMES
    }

    constructor ()
      ensures Valid() && log == []
    {
      log, files := [], map[];
    }

    /** `correct_storage_sum` with `add` set. */
    method CorrectSum(level: nat, dir: nat, pos: nat, s: Sum)
      requires WellSized(files) && pos < 256
      modifies this`files
      ensures var f := FileAt(old(files), level, dir); files == old(files)[(level, dir) := f[pos := Plus(f[pos], s)]]
    {
      var sums := FileAt(files, level, dir);
      sums := sums[pos := Plus(sums[pos], s)];
      files := files[(level, dir) := sums];
    }

    /** `xdag_storage_save` and `correct_storage_sums`. */
    method Save(b: Block)
      requires Valid() && b.time < TIMES
      modifies this
      ensures Valid() && log == old(log) + [b]
    {
      hide Tally, WordSum, LevelExact, Dir, Pos, Plus;
      var sum, j := 0, 0;
      WordSumEmpty();
      assert b.words[..0] == [];
      while j < |b.words|
        modifies {}
        invariant 0 <= j <= |b.words| && sum == WordSum(b.words[..j])
      {
        WordSumNext(b.words, j);
        sum := (sum + b.words[j]) % WORD;
        j := j + 1;
      }
      assert b.words[..j] == b.words;
      var s, t := Sum(sum, BLOCK_SIZE), b.time;
      assert s == Single(b);
      LevelCounts(files, log, b, 3);
      CorrectSum(3, Dir(3, t), Pos(3, t), s);
      LevelCounts(files, log, b, 2);
      CorrectSum(2, Dir(2, t), Pos(2, t), s);
      LevelCounts(files, log, b, 1);
      CorrectSum(1, Dir(1, t), Pos(1, t), s);
      LevelCounts(files, log, b, 0);
      CorrectSum(0, Dir(0, t), Pos(0, t), s);
      log := log + [b];
    }

    /**
     * `xdag_load_sums`, with `word` the unsigned difference of its two times: refuses every span
     * that is not one of 2^20, 2^24, ..., 2^48; on an aligned interval the answer is exact.
     */
    method LoadSums(start: nat, word: bv64) returns (res: int, sums: seq<Sum>)
      requires Valid() && start < WORD
      ensures res == 1 || res == -1
      ensures res == 1 <==> exists k :: SpanIs(Value(word), k)
      ensures res == 1 ==> |sums| == 16
      ensures forall k :: SpanIs(Value(word), k) && Aligned(start, k) ==> Sixteenths(log, start, k, sums)
    {
      hide Tally, LevelExact, Width, Plus, Dir, Pow16, Sixteenths, Exact, Value, Passes, OffsetOf;
      SpanBits(word);
      var span := Value(word);
      if !Passes(word) {
        forall k ensures !SpanIs(span, k) {
          SpanLevel(span, k);
        }
        return -1, [];
      }
      LevelFits(span);
      ghost var k := LevelOf(span);
      var level: int := -6;
      var rest := span;
      while rest != 0
        modifies {}
        invariant -6 <= level <= k
        invariant if level < k then rest == Pow16(k - 1 - level) else rest == 0
        decreases rest
      {
        Pow16Down(k - 1 - level);
        level := level + 1;
        rest := rest / 16;
      }
      var file := FileOf(level);
      ExactSized(files, log, file, Dir(file, start % TIMES));
      var buf := FileAt(files, file, Dir(file, start % TIMES));
      var off := OffsetOf(start, level);
      if level % 2 == 1 {
        sums := Gather(buf);
      } else {
        sums := buf[off..off + 16];
      }
      res := 1;
      forall j | SpanIs(span, j) && Aligned(start, j) ensures Sixteenths(log, start, j, sums) {
        SpanLevel(span, j);
        if level % 2 == 1 {
          OddLevel(files, log, start, level, buf, sums);
        } else {
          EvenLevel(files, log, start, level, buf, off);
        }
      }
    }
  }

  // ---------------------------------------------------------------- why loading is exact

  /** Which level's file serves a span (client/storage.c:301-309). */
  function FileOf(level: nat): (file: nat)
    requires level < 8
    ensures file < 4
  {
    if level < 2 then 3 else if level < 4 then 2 else if level < 6 then 1 else 0
  }

  /** Where the sixteen cells of an interval stand in their file (client/storage.c:325). */
  function OffsetOf(start: nat, level: nat): (off: nat)
    ensures off <= 240
  {
    start / Pow16(level + 4) / 16 % 16 * 16
  }

  function Mark(start: nat, w: nat, i: nat): nat { start + i * w }

  ghost predicate Aligned(start: nat, k: nat) {
    start % Pow16(k + 5) == 0 && start + Pow16(k + 5) <= TIMES
  }

  /** Entry `i` is the sum of exactly the blocks in the i-th sixteenth of an interval of 16^(k+5). */
  ghost predicate Sixteenths(log: seq<Block>, start: nat, k: nat, sums: seq<Sum>) {
    && |sums| == 16
    && forall i :: 0 <= i < 16 ==> sums[i] == Tally(log, Mark(start, Pow16(k + 4), i), Mark(start, Pow16(k + 4), i + 1))
  }

  function LevelOf(span: nat): (k: nat)
    ensures k < 8
  {
    if span == 0x10_0000 then 0 else if span == 0x100_0000 then 1 else if span == 0x1000_0000 then 2
    else if span == 0x1_0000_0000 then 3 else if span == 0x10_0000_0000 then 4 else if span == 0x100_0000_0000 then 5
    else if span == 0x1000_0000_0000 then 6 else 7
  }

  lemma {:induction false} Pow16Values()
    ensures Pow16(4) == 0x1_0000 && Pow16(5) == 0x10_0000 && Pow16(6) == 0x100_0000 && Pow16(7) == 0x1000_0000
    ensures Pow16(8) == 0x1_0000_0000 && Pow16(9) == 0x10_0000_0000 && Pow16(10) == 0x100_0000_0000
    ensures Pow16(11) == 0x1000_0000_0000 && Pow16(12) == 0x1_0000_0000_0000
  {
    assert Pow16(2) == 256;
  }

  lemma {:induction false} Pow16Down(n: nat)
    ensures if n == 0 then Pow16(n) / 16 == 0 else Pow16(n) / 16 == Pow16(n - 1)
  {}

  /** The span is 16^(k+5), that is, 2^(20+4k). */
  ghost predicate SpanIs(span: nat, k: nat) { k < 8 && span == Pow16(k + 5) }

  lemma {:induction false} SpanLevel(span: nat, k: nat)
    ensures SpanIs(span, k) ==> IsSpan(span) && LevelOf(span) == k
  {
    hide Pow16;
    Pow16Values();
  }

  lemma {:induction false} LevelFits(span: nat)
    requires IsSpan(span)
    ensures SpanIs(span, LevelOf(span))
  {
    hide Pow16;
    Pow16Values();
  }

  lemma {:induction false} ExactSized(files: Files, log: seq<Block>, level: nat, dir: nat)
    requires Exact(files, log)
    ensures |FileAt(files, level, dir)| == 256
  {}

  /** The cell width that serves a span is one or two sixteenths-steps below it. */
  lemma {:induction false} WidthOf(level: nat)
    requires level < 8
    ensures Width(FileOf(level)) == Pow16(if level % 2 == 1 then level + 3 else level + 4)
  {
    hide Pow16;
    Pow16Values();
  }

  /** `start` is the beginning of cell number `c` of width `w`. */
  ghost predicate Counts(start: nat, c: nat, w: nat) {
    start == c * w
  }

  lemma {:induction false} AlignedTime(start: nat, level: nat)
    requires Aligned(start, level)
    ensures start < TIMES && start % TIMES == start
  {
    hide Pow16;
  }

  /** The file of the directory of `start` holds the cells counted from `start`'s 256-aligned base. */
  lemma {:induction false} CellAt(files: Files, log: seq<Block>, file: nat, start: nat, c: nat, j: nat)
    requires Exact(files, log) && file < 4 && start < TIMES && Counts(start, c, Width(file)) && c % 256 + j < 256
    ensures |FileAt(files, file, Dir(file, start))| == 256
    ensures FileAt(files, file, Dir(file, start))[c % 256 + j] == Tally(log, Mark(start, Width(file), j), Mark(start, Width(file), j + 1))
  {
    hide Tally, Width, Dir, Pos;
    var w := Width(file);
    DivCell(start, w, c);
    DirPos(file, start);
    var dir, pos := c / 256, c % 256 + j;
    assert 256 * dir + pos == c + j;
    assert LevelExact(files, log, file);
    assert CellExact(files, log, file, dir, pos);
    Distribute(c, j, w);
    Distribute(c, j + 1, w);
  }

  lemma {:induction false} Distribute(a: nat, b: nat, w: nat)
    ensures (a + b) * w == a * w + b * w
  {}

  lemma {:induction false} Multiple(start: nat, n: nat) returns (c: nat)
    requires n > 0 && start % n == 0
    ensures start == c * n
  {
    c := start / n;
  }

  /** On an even level sixteen consecutive cells of one file make up the interval. */
  lemma {:induction false} EvenLevel(files: Files, log: seq<Block>, start: nat, level: nat, buf: seq<Sum>, off: nat)
    requires Exact(files, log) && level < 8 && level % 2 == 0 && Aligned(start, level)
    requires buf == FileAt(files, FileOf(level), Dir(FileOf(level), start % TIMES)) && |buf| == 256
    requires off == OffsetOf(start, level)
    ensures off + 16 <= 256 && Sixteenths(log, start, level, buf[off..off + 16])
  {
    hide Tally, Width, Dir, Exact, Pow16, FileOf, Mark, FileAt, OffsetOf, Counts, Aligned;
    WidthOf(level);
    AlignedTime(start, level);
    var c := EvenBase(start, level, off);
    EvenCells(files, log, FileOf(level), start, c, buf, off);
  }

  lemma {:induction false} EvenBase(start: nat, level: nat, off: nat) returns (c: nat)
    requires Aligned(start, level) && off == OffsetOf(start, level)
    ensures Counts(start, c, Pow16(level + 4)) && off == c % 256 <= 240
  {
    hide Pow16;
    Pow16Next(level + 4);
    var a := Multiple(start, Pow16(level + 5));
    Offset(start, a, Pow16(level + 4));
    c := 16 * a;
  }

  lemma {:induction false} EvenCells(files: Files, log: seq<Block>, file: nat, start: nat, c: nat, buf: seq<Sum>, off: nat)
    requires Exact(files, log) && file < 4 && start < TIMES && Counts(start, c, Width(file)) && off == c % 256 <= 240
    requires buf == FileAt(files, file, Dir(file, start)) && |buf| == 256
    ensures forall i :: 0 <= i < 16 ==> buf[off..off + 16][i] == Tally(log, Mark(start, Width(file), i), Mark(start, Width(file), i + 1))
  {
    hide Tally, Width, Dir, Exact, Mark, FileAt, Counts;
    forall i | 0 <= i < 16 ensures buf[off..off + 16][i] == Tally(log, Mark(start, Width(file), i), Mark(start, Width(file), i + 1)) {
      CellAt(files, log, file, start, c, i);
    }
  }

  lemma {:induction false} Offset(start: nat, a: nat, w: nat)
    requires w > 0 && start == a * (16 * w)
    ensures start == (16 * a) * w && start / w / 16 % 16 * 16 == 16 * a % 256 <= 240
  {
    Reassociate(a, w);
    DivExact(start, 16 * a, w);
    Nibble(a);
  }

  lemma {:induction false} Nibble(a: nat)
    ensures 16 * a / 16 % 16 * 16 == 16 * a % 256 <= 240
  {
    var q, r := a / 16, a % 16;
    assert 16 * a == 256 * q + 16 * r && 16 * r <= 240;
    assert 16 * a / 16 == a;
  }

  lemma {:induction false} Pow16Next(n: nat)
    ensures Pow16(n + 1) == 16 * Pow16(n)
  {}

  lemma {:induction false} Reassociate(a: nat, w: nat)
    ensures a * (16 * w) == (16 * a) * w
  {}

  lemma {:induction false} DivExact(start: nat, c: nat, w: nat)
    requires w > 0 && start == c * w
    ensures start / w == c
  {
    DivCell(start, w, c);
    Distribute(c, 1, w);
  }

  /** On an odd level all 256 cells of one file make up the interval, sixteen to a part. */
  lemma {:induction false} OddLevel(files: Files, log: seq<Block>, start: nat, level: nat, buf: seq<Sum>, sums: seq<Sum>)
    requires Exact(files, log) && level < 8 && level % 2 == 1 && Aligned(start, level)
    requires buf == FileAt(files, FileOf(level), Dir(FileOf(level), start % TIMES)) && |buf| == 256
    requires |sums| == 16 && forall m :: 0 <= m < 16 ==> sums[m] == RunSum(buf[16 * m..16 * m + 16])
    ensures Sixteenths(log, start, level, sums)
  {
    hide Tally, Width, Dir, Exact, Pow16, FileOf, RunSum, Mark, FileAt, Counts, Aligned;
    WidthOf(level);
    AlignedTime(start, level);
    Pow16Next(level + 3);
    var c := OddBase(start, level);
    OddCells(files, log, FileOf(level), start, c, buf);
    OddRuns(log, start, Pow16(level + 3), buf, sums);
  }

  lemma {:induction false} OddBase(start: nat, level: nat) returns (c: nat)
    requires level > 0 && Aligned(start, level)
    ensures Counts(start, c, Pow16(level + 3)) && c % 256 == 0
  {
    hide Pow16;
    Pow16Next(level + 4);
    Pow16Next(level + 3);
    var a := Multiple(start, Pow16(level + 5));
    Twice(start, a, Pow16(level + 3));
    c := 256 * a;
  }

  lemma {:induction false} Twice(start: nat, a: nat, w: nat)
    requires start == a * (16 * (16 * w))
    ensures start == (256 * a) * w
  {
    Reassociate(a, 16 * w);
    Reassociate(16 * a, w);
  }

  lemma {:induction false} OddCells(files: Files, log: seq<Block>, file: nat, start: nat, c: nat, buf: seq<Sum>)
    requires Exact(files, log) && file < 4 && start < TIMES && Counts(start, c, Width(file)) && c % 256 == 0
    requires buf == FileAt(files, file, Dir(file, start)) && |buf| == 256
    ensures forall j :: 0 <= j < 256 ==> buf[j] == Tally(log, Mark(start, Width(file), j), Mark(start, Width(file), j + 1))
  {
    hide Tally, Width, Dir, Exact, Mark, FileAt, Counts;
    forall j | 0 <= j < 256 ensures buf[j] == Tally(log, Mark(start, Width(file), j), Mark(start, Width(file), j + 1)) {
      CellAt(files, log, file, start, c, j);
    }
  }

  lemma {:induction false} OddRuns(log: seq<Block>, start: nat, w: nat, buf: seq<Sum>, sums: seq<Sum>)
    requires |buf| == 256 && forall j :: 0 <= j < 256 ==> buf[j] == Tally(log, Mark(start, w, j), Mark(start, w, j + 1))
    requires |sums| == 16 && forall m :: 0 <= m < 16 ==> sums[m] == RunSum(buf[16 * m..16 * m + 16])
    ensures forall m :: 0 <= m < 16 ==> sums[m] == Tally(log, Mark(start, 16 * w, m), Mark(start, 16 * w, m + 1))
  {
    hide Tally, RunSum, Mark;
    forall m | 0 <= m < 16 ensures sums[m] == Tally(log, Mark(start, 16 * w, m), Mark(start, 16 * w, m + 1)) {
      RunTally(buf, log, start, w, 16 * m, 16);
      MarkScale(start, w, m);
      MarkScale(start, w, m + 1);
    }
  }

  lemma {:induction false} MarkScale(start: nat, w: nat, m: nat)
    ensures Mark(start, 16 * w, m) == Mark(start, w, 16 * m)
  {
    Reassociate(m, w);
  }

  lemma {:induction false} RunTally(buf: seq<Sum>, log: seq<Block>, start: nat, w: nat, a: nat, n: nat)
    requires a + n <= |buf|
    requires forall j :: a <= j < a + n ==> buf[j] == Tally(log, Mark(start, w, j), Mark(start, w, j + 1))
    ensures RunSum(buf[a..a + n]) == Tally(log, Mark(start, w, a), Mark(start, w, a + n))
  {
    hide Tally, RunSum;
    if n == 0 {
      RunSumEmpty();
      TallyEmpty(log, Mark(start, w, a));
      assert buf[a..a] == [];
    } else {
      RunTally(buf, log, start, w, a, n - 1);
      RunSumNext(buf, a, a + n - 1);
      MulMono(a, a + n - 1, w);
      MulMono(a + n - 1, a + n, w);
      TallySplit(log, Mark(start, w, a), Mark(start, w, a + n - 1), Mark(start, w, a + n));
    }
  }

  /** Adds up each run of sixteen entries (client/storage.c:318-323). */
  method Gather(buf: seq<Sum>) returns (sums: seq<Sum>)
    requires |buf| == 256
    ensures |sums| == 16 && forall m :: 0 <= m < 16 ==> sums[m] == RunSum(buf[16 * m..16 * m + 16])
  {
    hide Plus, RunSum;
    sums := seq(16, _ => ZERO);
    var i := 0;
    RunSumEmpty();
    assert forall m :: 0 <= m < 16 ==> buf[16 * m..Clamp(0, m)] == [];
    while i < 256
      invariant 0 <= i <= 256 && |sums| == 16
      invariant forall m :: 0 <= m < 16 ==> sums[m] == RunSum(buf[16 * m..Clamp(i, m)])
    {
      RunSumNext(buf, 16 * (i / 16), i);
      sums := sums[i / 16 := Plus(sums[i / 16], buf[i])];
      i := i + 1;
    }
  }

  /** How far entries up to `i` reach into run `m`. */
  function Clamp(i: nat, m: nat): nat {
    if i < 16 * m then 16 * m else if i > 16 * m + 16 then 16 * m + 16 else i
  }

  function RunSum(s: seq<Sum>): Sum {
    if s == [] then ZERO else Plus(RunSum(s[..|s| - 1]), s[|s| - 1])
  }

  lemma {:induction false} RunSumEmpty()
    ensures RunSum([]) == ZERO
  {}

  lemma {:induction false} RunSumNext(s: seq<Sum>, a: nat, i: nat)
    requires a <= i < |s|
    ensures RunSum(s[a..i + 1]) == Plus(RunSum(s[a..i]), s[i])
  {
    assert s[a..i + 1][..i - a] == s[a..i];
  }

  function Pow16(n: nat): (p: nat)
    ensures p > 0
  {
    if n == 0 then 1 else 16 * Pow16(n - 1)
  }

  /** The spans that the two masks let through. */
  predicate IsSpan(span: nat) {
    span in {0x10_0000, 0x100_0000, 0x1000_0000, 0x1_0000_0000, 0x10_0000_0000, 0x100_0000_0000, 0x1000_0000_0000, 0x1_0000_0000_0000}
  }

  function Value(d: bv64): nat { d as nat }

  /** The test by masks (client/storage.c:297): one bit is set, and it is one of those allowed. */
  predicate Passes(d: bv64) {
    !(d == 0 || d & (d - 1) != 0 || d & 0xFFFE_EEEE_EEEF_FFFF != 0)
  }

  lemma {:induction false} SpanBits(d: bv64)
    ensures Passes(d) <==> IsSpan(Value(d))
  {
    hide Value, Passes;
    MaskBits(d);
    Spans20(d);
    Spans28(d);
    Spans36(d);
    Spans44(d);
  }

  lemma {:induction false} MaskBits(d: bv64)
    ensures Passes(d) <==>
      d in {0x10_0000, 0x100_0000, 0x1000_0000, 0x1_0000_0000, 0x10_0000_0000, 0x100_0000_0000, 0x1000_0000_0000, 0x1_0000_0000_0000}
  {}

  lemma {:induction false} Spans20(d: bv64)
    ensures (Value(d) == 0x10_0000 <==> d == 0x10_0000) && (Value(d) == 0x100_0000 <==> d == 0x100_0000)
  {}

  lemma {:induction false} Spans28(d: bv64)
    ensures (Value(d) == 0x1000_0000 <==> d == 0x1000_0000) && (Value(d) == 0x1_0000_0000 <==> d == 0x1_0000_0000)
  {}

  lemma {:induction false} Spans36(d: bv64)
    ensures (Value(d) == 0x10_0000_0000 <==> d == 0x10_0000_0000) && (Value(d) == 0x100_0000_0000 <==> d == 0x100_0000_0000)
  {}

  lemma {:induction false} Spans44(d: bv64)
    ensures (Value(d) == 0x1000_0000_0000 <==> d == 0x1000_0000_0000) && (Value(d) == 0x1_0000_0000_0000 <==> d == 0x1_0000_0000_0000)
  {}

  /** A span as a machine word. */
  function SpanWord(span: nat): (d: bv64)
    requires IsSpan(span)
    ensures Value(d) == span
  {
    if span == 0x10_0000 then 0x10_0000 else if span == 0x100_0000 then 0x100_0000 else if span == 0x1000_0000 then 0x1000_0000
    else if span == 0x1_0000_0000 then 0x1_0000_0000 else if span == 0x10_0000_0000 then 0x10_0000_0000
    else if span == 0x100_0000_0000 then 0x100_0000_0000 else if span == 0x1000_0000_0000 then 0x1000_0000_0000
    else 0x1_0000_0000_0000
  }

  lemma {:induction false} WordSumEmpty()
    ensures WordSum([]) == 0
  {}

  lemma {:induction false} WordSumNext(words: seq<nat>, j: nat)
    requires j < |words|
    ensures WordSum(words[..j + 1]) == (WordSum(words[..j]) + words[j]) % WORD
  {
    assert words[..j + 1][..j] == words[..j];
  }
}
