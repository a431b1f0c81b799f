/**
 * The wait list of the synchronisation (client/sync.c): blocks that cannot be
 * indexed yet are filed under the first reference that is missing and tried
 * again when that reference arrives.
 *
 * Hashes are injective, so a block is named by its hash.
 */
module WaitList {
  import opened Common

  type Hash = nat

  const BUCKETS: nat := 0x10000
  const REQ_PERIOD: int := 64

  /** What a block says, fixed by its hash. `links` lists its references in field order. */
  datatype World = World(
    links: Hash -> seq<Hash>,
    time: Hash -> nat,
    wellFormed: Hash -> bool,   // passes the checks made before the references are looked up
    sound: Hash -> bool)        // passes the checks made afterwards

  /** Outcome of `xdag_add_block`; `Missing(i)` is error code 5 with field number i. */
  datatype Verdict = Exists | Added | Missing(field: nat) | Bad

  datatype Entry = Entry(block: Hash, nfield: nat, t: int)

  function Bucket(h: Hash): (j: nat)
    ensures j < BUCKETS
  {
    h % BUCKETS
  }

  // ---------------------------------------------------------------- the verdict on a block

  /** The loop over the references from field `i` on (client/block.c:623-638). */
  function Scan(w: World, b: Hash, index: set<Hash>, i: nat): Verdict
    decreases |w.links(b)| - i
  {
    if i >= |w.links(b)| then (if w.sound(b) then Added else Bad)
    else if w.links(b)[i] !in index then Missing(i)
    else if w.time(w.links(b)[i]) >= w.time(b) then Bad
    else Scan(w, b, index, i + 1)
  }

  function Judge(w: World, b: Hash, index: set<Hash>): Verdict {
    if b in index then Exists
    else if !w.wellFormed(b) then Bad
    else Scan(w, b, index, 0)
  }

  /** All references before field `k` are indexed and earlier. */
  ghost predicate ReadyTo(w: World, b: Hash, index: set<Hash>, k: nat) {
    forall j :: 0 <= j < k && j < |w.links(b)| ==> w.links(b)[j] in index && w.time(w.links(b)[j]) < w.time(b)
  }

  /** The block itself is in order: it would be indexed if its references were. */
  ghost predicate Acceptable(w: World, b: Hash) {
    && w.wellFormed(b) && w.sound(b)
    && forall h :: h in w.links(b) ==> w.time(h) < w.time(b)
  }

  lemma {:induction false} ScanMeaning(w: World, b: Hash, index: set<Hash>, i: nat)
    requires ReadyTo(w, b, index, i)
    ensures var v := Scan(w, b, index, i);
      && !v.Exists?
      && (v.Missing? ==> v.field < |w.links(b)| && w.links(b)[v.field] !in index && ReadyTo(w, b, index, v.field))
      && (v.Added? <==> ReadyTo(w, b, index, |w.links(b)|) && w.sound(b))
    decreases |w.links(b)| - i
  {
    if i < |w.links(b)| && w.links(b)[i] in index && w.time(w.links(b)[i]) < w.time(b) {
      ScanMeaning(w, b, index, i + 1);
    }
  }

  /** The first missing reference is found, whatever is known about later ones. */
  lemma {:induction false} ScanFinds(w: World, b: Hash, index: set<Hash>, i: nat, k: nat)
    requires ReadyTo(w, b, index, k) && i <= k < |w.links(b)| && w.links(b)[k] !in index
    ensures Scan(w, b, index, i) == Missing(k)
    decreases k - i
  {
    if i < k {
      ScanFinds(w, b, index, i + 1, k);
    }
  }

  /** A rejected block stays rejected when the index grows. */
  lemma {:induction false} BadStays(w: World, b: Hash, index: set<Hash>, more: set<Hash>, i: nat)
    requires Scan(w, b, index, i).Bad? && index <= more
    ensures Scan(w, b, more, i).Bad?
    decreases |w.links(b)| - i
  {
    if i < |w.links(b)| && w.time(w.links(b)[i]) < w.time(b) {
      BadStays(w, b, index, more, i + 1);
    }
  }

  // ---------------------------------------------------------------- the set of indexed blocks, without any order

  /** `b` and all it leads to, down to blocks without references, is delivered and acceptable. */
  ghost predicate Grounded(w: World, b: Hash, delivered: set<Hash>)
    decreases w.time(b)
  {
    && b in delivered && Acceptable(w, b)
    && forall h :: h in w.links(b) ==> Grounded(w, h, delivered)
  }

  // ---------------------------------------------------------------- what holds between deliveries

  ghost predicate Waiting(entries: map<nat, Entry>, b: Hash) {
    exists q :: q in entries && entries[q].block == b
  }

  /** Indexed blocks are delivered, in order, and have all their references indexed. */
  ghost predicate IndexSound(w: World, index: set<Hash>, delivered: set<Hash>) {
    forall b :: b in index ==> b in delivered && Acceptable(w, b) && forall h :: h in w.links(b) ==> h in index
  }

  function Awaited(w: World, e: Entry): Hash
    requires e.nfield < |w.links(e.block)|
  {
    w.links(e.block)[e.nfield]
  }

  /** The entry waits for its first missing reference; that one may have arrived only if it is being released. */
  ghost predicate EntrySound(w: World, index: set<Hash>, delivered: set<Hash>, released: set<Hash>, e: Entry) {
    && e.block in delivered && e.block !in index && w.wellFormed(e.block)
    && e.nfield < |w.links(e.block)| && ReadyTo(w, e.block, index, e.nfield)
    && (Awaited(w, e) in index ==> Awaited(w, e) in released)
  }

  ghost predicate EntriesSound(w: World, index: set<Hash>, delivered: set<Hash>, released: set<Hash>, entries: map<nat, Entry>) {
    && (forall q :: q in entries ==> EntrySound(w, index, delivered, released, entries[q]))
    && (forall q, r :: q in entries && r in entries && entries[q].block == entries[r].block ==> q == r)
  }

  /** Every delivered block not in `hand` is indexed, rejected for good, or waiting. */
  ghost predicate Settled(w: World, index: set<Hash>, delivered: set<Hash>, hand: set<Hash>, entries: map<nat, Entry>) {
    forall b :: b in delivered && b !in hand ==> b in index || Judge(w, b, index).Bad? || Waiting(entries, b)
  }

  ghost predicate Sound(w: World, on: bool, index: set<Hash>, delivered: set<Hash>, released: set<Hash>, hand: set<Hash>, entries: map<nat, Entry>) {
    && IndexSound(w, index, delivered)
    && EntriesSound(w, index, delivered, released, entries)
    && (on ==> Settled(w, index, delivered, hand, entries))
  }

  lemma {:induction false} IndexedIsGrounded(w: World, b: Hash, index: set<Hash>, delivered: set<Hash>)
    requires IndexSound(w, index, delivered) && b in index
    ensures Grounded(w, b, delivered)
    decreases w.time(b)
  {
    forall h | h in w.links(b) ensures Grounded(w, h, delivered) {
      IndexedIsGrounded(w, h, index, delivered);
    }
  }

  lemma {:induction false} GroundedIsIndexed(w: World, b: Hash, index: set<Hash>, delivered: set<Hash>, entries: map<nat, Entry>)
    requires EntriesSound(w, index, delivered, {}, entries) && Settled(w, index, delivered, {}, entries)
    requires Grounded(w, b, delivered)
    ensures b in index
    decreases w.time(b)
  {
    forall h | h in w.links(b) ensures h in index {
      GroundedIsIndexed(w, h, index, delivered, entries);
    }
    ScanMeaning(w, b, index, 0);
  }

  /** At rest the index is determined by the set of delivered blocks alone, and so is who waits for what. */
  lemma {:induction false} RestDetermined(w: World, index: set<Hash>, delivered: set<Hash>, entries: map<nat, Entry>)
    requires Sound(w, true, index, delivered, {}, {}, entries)
    ensures index == set b | b in delivered && Grounded(w, b, delivered)
    ensures forall b :: Waiting(entries, b) <==> b in delivered && Judge(w, b, index).Missing?
    ensures forall q :: q in entries ==> Judge(w, entries[q].block, index) == Missing(entries[q].nfield)
  {
    forall b | b in index ensures Grounded(w, b, delivered) {
      IndexedIsGrounded(w, b, index, delivered);
    }
    forall b | b in delivered && Grounded(w, b, delivered) ensures b in index {
      GroundedIsIndexed(w, b, index, delivered, entries);
    }
    forall q | q in entries ensures Judge(w, entries[q].block, index) == Missing(entries[q].nfield) {
      ScanFinds(w, entries[q].block, index, 0, entries[q].nfield);
    }
    forall b | b in delivered && Judge(w, b, index).Missing? ensures Waiting(entries, b) {}
  }

  /** A link-closed set of blocks that are in order is grounded as a whole. */
  lemma {:induction false} ClosedIsGrounded(w: World, b: Hash, delivered: set<Hash>)
    requires forall c :: c in delivered ==> Acceptable(w, c) && forall h :: h in w.links(c) ==> h in delivered
    requires b in delivered
    ensures Grounded(w, b, delivered)
    decreases w.time(b)
  {
    forall h | h in w.links(b) ensures Grounded(w, h, delivered) {
      ClosedIsGrounded(w, h, delivered);
    }
  }

  /** Two nodes that received the same blocks, in whatever order, agree. */
  lemma {:induction false} SameDelivery(w: World, delivered: set<Hash>, index1: set<Hash>, entries1: map<nat, Entry>, index2: set<Hash>, entries2: map<nat, Entry>)
    requires Sound(w, true, index1, delivered, {}, {}, entries1) && Sound(w, true, index2, delivered, {}, {}, entries2)
    ensures index1 == index2
    ensures forall b :: Waiting(entries1, b) <==> Waiting(entries2, b)
    ensures forall q, r :: q in entries1 && r in entries2 && entries1[q].block == entries2[r].block ==> entries1[q].nfield == entries2[r].nfield
  {
    hide IndexSound, EntriesSound, Settled, Grounded, Judge, Waiting;
    RestDetermined(w, index1, delivered, entries1);
    RestDetermined(w, index2, delivered, entries2);
  }

  /** A link-closed set of blocks in order ends up indexed as a whole, with an empty wait list. */
  lemma {:induction false} ClosedDelivery(w: World, delivered: set<Hash>, index: set<Hash>, entries: map<nat, Entry>)
    requires Sound(w, true, index, delivered, {}, {}, entries)
    requires forall c :: c in delivered ==> Acceptable(w, c) && forall h :: h in w.links(c) ==> h in delivered
    ensures index == delivered && entries == map[]
  {
    hide Grounded, Acceptable, Judge, EntrySound;
    forall b | b in delivered ensures b in index {
      ClosedIsGrounded(w, b, delivered);
      GroundedIsIndexed(w, b, index, delivered, entries);
    }
    forall q ensures q !in entries {
      if q in entries {
        EntryUnindexed(w, index, delivered, {}, entries[q]);
      }
    }
  }

  lemma {:induction false} EntryUnindexed(w: World, index: set<Hash>, delivered: set<Hash>, released: set<Hash>, e: Entry)
    requires EntrySound(w, index, delivered, released, e)
    ensures e.block in delivered && e.block !in index
  {}

  // ---------------------------------------------------------------- how steps keep it

  lemma {:induction false} Arrives(w: World, on: bool, index: set<Hash>, delivered: set<Hash>, entries: map<nat, Entry>, b: Hash)
    requires Sound(w, on, index, delivered, {}, {}, entries)
    ensures Sound(w, on, index, delivered + {b}, {}, {b}, entries) && NotDue(w, index, entries, b)
  {
    hide Judge, ReadyTo, Acceptable;
    forall q | q in entries ensures EntrySound(w, index, delivered + {b}, {}, entries[q]) {
      assert EntrySound(w, index, delivered, {}, entries[q]);
    }
  }

  /** Indexing `b`, which had all its references: entries awaiting it are due. */
  lemma {:induction false} IndexGrows(w: World, on: bool, index: set<Hash>, delivered: set<Hash>, released: set<Hash>, entries: map<nat, Entry>, b: Hash)
    requires IndexSound(w, index, delivered) && EntriesSound(w, index, delivered, released, entries)
    requires (on ==> Settled(w, index, delivered, {b}, entries)) && b in delivered && Judge(w, b, index).Added?
    requires NotDue(w, index, entries, b)
    ensures IndexSound(w, index + {b}, delivered) && EntriesSound(w, index + {b}, delivered, released + {b}, entries)
    ensures on ==> Settled(w, index + {b}, delivered, {}, entries)
  {
    hide Grounded;
    var more := index + {b};
    ScanMeaning(w, b, index, 0);
    forall h | h in w.links(b) ensures h in index && w.time(h) < w.time(b) {
      var j :| 0 <= j < |w.links(b)| && w.links(b)[j] == h;
    }
    forall q | q in entries ensures EntrySound(w, more, delivered, released + {b}, entries[q]) {
      assert EntrySound(w, index, delivered, released, entries[q]);
    }
    forall c | c in delivered && c !in more && Judge(w, c, index).Bad? ensures Judge(w, c, more).Bad? {
      if w.wellFormed(c) {
        BadStays(w, c, index, more, 0);
      }
    }
  }

  /** No entry of block `b` awaits an indexed hash. */
  ghost predicate NotDue(w: World, index: set<Hash>, entries: map<nat, Entry>, b: Hash) {
    forall q :: q in entries && entries[q].block == b && entries[q].nfield < |w.links(b)| ==> Awaited(w, entries[q]) !in index
  }

  lemma {:induction false} Accepted(w: World, on: bool, index: set<Hash>, delivered: set<Hash>, released: set<Hash>, entries: map<nat, Entry>, b: Hash)
    requires Sound(w, on, index, delivered, released, {b}, entries) && b in delivered
    requires NotDue(w, index, entries, b) && Judge(w, b, index).Added?
    ensures Sound(w, on, index + {b}, delivered, released + {b}, {}, entries)
  {
    hide EntrySound, Judge, Acceptable;
    IndexGrows(w, on, index, delivered, released, entries, b);
  }

  lemma {:induction false} AlreadyIndexed(w: World, on: bool, index: set<Hash>, delivered: set<Hash>, released: set<Hash>, entries: map<nat, Entry>, b: Hash)
    requires Sound(w, on, index, delivered, released, {b}, entries) && Judge(w, b, index).Exists?
    ensures Sound(w, on, index, delivered, released + {b}, {}, entries) && b in index
  {
    if b !in index {
      ScanMeaning(w, b, index, 0);
    }
  }

  lemma {:induction false} Rejected(w: World, on: bool, index: set<Hash>, delivered: set<Hash>, released: set<Hash>, entries: map<nat, Entry>, b: Hash)
    requires Sound(w, on, index, delivered, released, {b}, entries) && Judge(w, b, index).Bad?
    ensures Sound(w, on, index, delivered, released, {}, entries)
  {}

  lemma {:induction false} HandDropped(w: World, index: set<Hash>, delivered: set<Hash>, released: set<Hash>, entries: map<nat, Entry>, b: Hash)
    requires Sound(w, false, index, delivered, released, {b}, entries)
    ensures Sound(w, false, index, delivered, released, {}, entries)
  {}

  lemma {:induction false} SoundEntries(w: World, on: bool, index: set<Hash>, delivered: set<Hash>, released: set<Hash>, hand: set<Hash>, entries: map<nat, Entry>)
    requires Sound(w, on, index, delivered, released, hand, entries)
    ensures EntriesSound(w, index, delivered, released, entries)
  {}

  lemma {:induction false} MissingField(w: World, index: set<Hash>, delivered: set<Hash>, released: set<Hash>, entries: map<nat, Entry>, b: Hash)
    requires EntriesSound(w, index, delivered, released, entries)
    requires NotDue(w, index, entries, b) && Judge(w, b, index).Missing?
    ensures var i := Judge(w, b, index).field;
      && i < |w.links(b)| && OneEach(entries)
      && forall q :: q in entries && entries[q].block == b ==> entries[q].nfield == i
  {
    ScanMeaning(w, b, index, 0);
    forall q | q in entries && entries[q].block == b ensures entries[q].nfield == Judge(w, b, index).field {
      ScanFinds(w, b, index, 0, entries[q].nfield);
    }
  }

  // ---------------------------------------------------------------- the hash tables

  /** Each entry is in exactly one list of the table, once: the list of its slot. */
  ghost predicate Filed(lists: seq<seq<nat>>, slots: map<nat, nat>) {
    && |lists| == BUCKETS
    && (forall j :: 0 <= j < BUCKETS ==> NoRepeat(lists[j]))
    && (forall j, q :: 0 <= j < BUCKETS ==> (q in lists[j] <==> q in slots && slots[q] == j))
  }

  ghost function ForwardSlots(w: World, entries: map<nat, Entry>): map<nat, nat>
    requires forall q :: q in entries ==> entries[q].nfield < |w.links(entries[q].block)|
  {
    map q | q in entries :: Bucket(Awaited(w, entries[q]))
  }

  ghost function ReverseSlots(entries: map<nat, Entry>): map<nat, nat> {
    map q | q in entries :: Bucket(entries[q].block)
  }

  lemma {:induction false} FileFront(lists: seq<seq<nat>>, slots: map<nat, nat>, q: nat, j: nat)
    requires Filed(lists, slots) && q !in slots && j < BUCKETS
    ensures Filed(lists[j := [q] + lists[j]], slots[q := j])
  {
    var l := [q] + lists[j];
    assert NoRepeat(l);
    forall x ensures x in l <==> x == q || x in lists[j] {}
  }

  lemma {:induction false} FileRemove(lists: seq<seq<nat>>, slots: map<nat, nat>, j: nat, i: nat)
    requires Filed(lists, slots) && j < BUCKETS && i < |lists[j]|
    ensures lists[j][i] in slots
    ensures Filed(lists[j := Removed(lists[j], i)], slots - {lists[j][i]})
  {
    hide Removed;
    assert lists[j][i] in lists[j];
    RemovedMembers(lists[j], i);
  }

  /** Both tables hold exactly the entries: by the hash awaited and by the block's own hash. */
  ghost predicate Filing(w: World, entries: map<nat, Entry>, forward: seq<seq<nat>>, reverse: seq<seq<nat>>) {
    && |forward| == |reverse| == BUCKETS
    && (forall q :: q in entries ==> entries[q].nfield < |w.links(entries[q].block)|)
    && Filed(forward, ForwardSlots(w, entries)) && Filed(reverse, ReverseSlots(entries))
  }

  /** The tables, their count and the supply of fresh names belong together. */
  ghost predicate InOrder(w: World, entries: map<nat, Entry>, forward: seq<seq<nat>>, reverse: seq<seq<nat>>, count: int, next: nat) {
    && |forward| == |reverse| == BUCKETS
    && (forall q :: q in entries ==> entries[q].nfield < |w.links(entries[q].block)|)
    && Filing(w, entries, forward, reverse)
    && (forall q :: q in entries ==> q < next)
    && count == |entries|
  }

  lemma {:induction false} InOrderFacts(w: World, entries: map<nat, Entry>, forward: seq<seq<nat>>, reverse: seq<seq<nat>>, count: int, next: nat)
    requires InOrder(w, entries, forward, reverse, count, next)
    ensures |forward| == |reverse| == BUCKETS && Filing(w, entries, forward, reverse) && next !in entries
    ensures forall q :: q in entries ==> entries[q].nfield < |w.links(entries[q].block)|
  {}

  lemma {:induction false} FileInOrder(w: World, entries: map<nat, Entry>, forward: seq<seq<nat>>, reverse: seq<seq<nat>>, count: int, q: nat, e: Entry)
    requires InOrder(w, entries, forward, reverse, count, q) && e.nfield < |w.links(e.block)|
    ensures var j, k := Bucket(Awaited(w, e)), Bucket(e.block);
      InOrder(w, entries[q := e], forward[j := [q] + forward[j]], reverse[k := [q] + reverse[k]], count + 1, q + 1)
  {
    hide Filing, Bucket;
    FileEntry(w, entries, forward, reverse, q, e);
  }

  lemma {:induction false} UnfileInOrder(w: World, entries: map<nat, Entry>, forward: seq<seq<nat>>, reverse: seq<seq<nat>>, count: int, next: nat, q: nat, j: nat, i: nat, k: nat, l: nat)
    requires InOrder(w, entries, forward, reverse, count, next) && q in entries
    requires j < BUCKETS && i < |forward[j]| && forward[j][i] == q
    requires k < BUCKETS && l < |reverse[k]| && reverse[k][l] == q
    ensures InOrder(w, entries - {q}, forward[j := Removed(forward[j], i)], reverse[k := Removed(reverse[k], l)], count - 1, next)
  {
    hide Filing, Removed;
    UnfileEntry(w, entries, forward, reverse, q, j, i, k, l);
  }

  lemma {:induction false} TouchInOrder(w: World, m: map<nat, Entry>, forward: seq<seq<nat>>, reverse: seq<seq<nat>>, count: int, next: nat, q: nat, e: Entry)
    requires InOrder(w, m, forward, reverse, count, next) && q in m && e.block == m[q].block && e.nfield == m[q].nfield
    ensures InOrder(w, m[q := e], forward, reverse, count, next) && Alike(m, m[q := e])
  {
    hide Filing;
    Touch(w, m, forward, reverse, q, e);
  }

  lemma {:induction false} Listed(w: World, entries: map<nat, Entry>, forward: seq<seq<nat>>, reverse: seq<seq<nat>>, q: nat)
    requires Filing(w, entries, forward, reverse) && q in entries
    ensures q in forward[Bucket(Awaited(w, entries[q]))] && q in reverse[Bucket(entries[q].block)]
  {
    assert ForwardSlots(w, entries)[q] == Bucket(Awaited(w, entries[q]));
    assert ReverseSlots(entries)[q] == Bucket(entries[q].block);
  }

  lemma {:induction false} InForward(w: World, entries: map<nat, Entry>, forward: seq<seq<nat>>, reverse: seq<seq<nat>>, j: nat, q: nat)
    requires Filing(w, entries, forward, reverse) && j < BUCKETS && q in forward[j]
    ensures q in entries && Bucket(Awaited(w, entries[q])) == j
  {
    assert q in ForwardSlots(w, entries);
  }

  lemma {:induction false} InReverse(w: World, entries: map<nat, Entry>, forward: seq<seq<nat>>, reverse: seq<seq<nat>>, j: nat, q: nat)
    requires Filing(w, entries, forward, reverse) && j < BUCKETS && q in reverse[j]
    ensures q in entries && Bucket(entries[q].block) == j
  {
    assert q in ReverseSlots(entries);
  }

  lemma {:induction false} FileEntry(w: World, entries: map<nat, Entry>, forward: seq<seq<nat>>, reverse: seq<seq<nat>>, q: nat, e: Entry)
    requires Filing(w, entries, forward, reverse) && q !in entries && e.nfield < |w.links(e.block)|
    ensures var j, k := Bucket(Awaited(w, e)), Bucket(e.block);
      Filing(w, entries[q := e], forward[j := [q] + forward[j]], reverse[k := [q] + reverse[k]])
    ensures |entries[q := e]| == |entries| + 1
  {
    hide Filed, ForwardSlots, ReverseSlots, Bucket;
    var j, k := Bucket(Awaited(w, e)), Bucket(e.block);
    SlotsOf(w, entries);
    FileFront(forward, ForwardSlots(w, entries), q, j);
    FileFront(reverse, ReverseSlots(entries), q, k);
    SlotsGrow(w, entries, q, e);
    OneMore(entries, q, e);
  }

  lemma {:induction false} OneMore(entries: map<nat, Entry>, q: nat, e: Entry)
    requires q !in entries
    ensures |entries[q := e]| == |entries| + 1
  {}

  lemma {:induction false} SlotsOf(w: World, entries: map<nat, Entry>)
    requires forall q :: q in entries ==> entries[q].nfield < |w.links(entries[q].block)|
    ensures ForwardSlots(w, entries).Keys == ReverseSlots(entries).Keys == entries.Keys
  {}

  lemma {:induction false} SlotsGrow(w: World, entries: map<nat, Entry>, q: nat, e: Entry)
    requires e.nfield < |w.links(e.block)| && forall r :: r in entries ==> entries[r].nfield < |w.links(entries[r].block)|
    ensures ForwardSlots(w, entries[q := e]) == ForwardSlots(w, entries)[q := Bucket(Awaited(w, e))]
    ensures ReverseSlots(entries[q := e]) == ReverseSlots(entries)[q := Bucket(e.block)]
  {
    hide Bucket, Awaited;
  }

  lemma {:induction false} UnfileEntry(w: World, entries: map<nat, Entry>, forward: seq<seq<nat>>, reverse: seq<seq<nat>>, q: nat, j: nat, i: nat, k: nat, l: nat)
    requires Filing(w, entries, forward, reverse) && q in entries
    requires j < BUCKETS && i < |forward[j]| && forward[j][i] == q
    requires k < BUCKETS && l < |reverse[k]| && reverse[k][l] == q
    ensures Filing(w, entries - {q}, forward[j := Removed(forward[j], i)], reverse[k := Removed(reverse[k], l)])
    ensures |entries - {q}| == |entries| - 1
  {
    hide Filed, Removed;
    FileRemove(forward, ForwardSlots(w, entries), j, i);
    FileRemove(reverse, ReverseSlots(entries), k, l);
    assert ForwardSlots(w, entries - {q}) == ForwardSlots(w, entries) - {q};
    assert ReverseSlots(entries - {q}) == ReverseSlots(entries) - {q};
    assert entries == (entries - {q})[q := entries[q]];
  }

  /** Changing the time of an entry leaves the filing alone. */
  lemma {:induction false} Touch(w: World, m: map<nat, Entry>, forward: seq<seq<nat>>, reverse: seq<seq<nat>>, q: nat, e: Entry)
    requires Filing(w, m, forward, reverse) && q in m && e.block == m[q].block && e.nfield == m[q].nfield
    ensures Filing(w, m[q := e], forward, reverse) && |m[q := e]| == |m| && Alike(m, m[q := e])
  {
    hide Filed;
    assert ForwardSlots(w, m[q := e]) == ForwardSlots(w, m);
    assert ReverseSlots(m[q := e]) == ReverseSlots(m);
    assert m[q := e].Keys == m.Keys;
    assert |m| == |m.Keys| && |m[q := e]| == |m[q := e].Keys|;
  }

  lemma {:induction false} AlikeFacts(m: map<nat, Entry>, n: map<nat, Entry>)
    requires Alike(m, n)
    ensures forall b :: Waiting(m, b) <==> Waiting(n, b)
    ensures m.Keys == n.Keys
  {
    forall b ensures Waiting(m, b) <==> Waiting(n, b) {
      if q :| q in m && m[q].block == b {
        assert n[q].block == b;
      }
      if q :| q in n && n[q].block == b {
        assert m[q].block == b;
      }
    }
  }

  lemma {:induction false} AlikeSelf(m: map<nat, Entry>)
    ensures Alike(m, m)
  {}

  lemma {:induction false} AlikeJoin(m: map<nat, Entry>, n: map<nat, Entry>, o: map<nat, Entry>)
    requires Alike(m, n) && Alike(n, o)
    ensures Alike(m, o)
  {}

  /** The same entries up to the time of the last request. */
  ghost predicate Alike(m: map<nat, Entry>, n: map<nat, Entry>) {
    m.Keys == n.Keys && forall q :: q in m ==> n[q].block == m[q].block && n[q].nfield == m[q].nfield
  }

  /** `q` went to the front of the list of `hash`. */
  ghost predicate FiledFront(was: seq<seq<nat>>, now: seq<seq<nat>>, hash: Hash, q: nat) {
    |was| == BUCKETS && now == was[Bucket(hash) := [q] + was[Bucket(hash)]]
  }

  /** Entry `q` got the time `t` and nothing else changed. */
  ghost predicate Touched(m: map<nat, Entry>, n: map<nat, Entry>, q: nat, t: int) {
    q in m && n == m[q := m[q].(t := t)]
  }

  // ---------------------------------------------------------------- requests

  /** A request for `hash`, with the index, the blocks being released and the waiting blocks at that moment. */
  datatype Ask = Ask(hash: Hash, index: set<Hash>, released: set<Hash>, waiting: set<Hash>)

  ghost function WaitingBlocks(entries: map<nat, Entry>): set<Hash> { set q | q in entries :: entries[q].block }

  /** What was asked for did not wait, and was indexed exactly if its own waiters were just being released. */
  ghost predicate AskSound(a: Ask) {
    a.hash !in a.waiting && (a.hash in a.index <==> a.hash in a.released)
  }

  ghost predicate Logged(requests: seq<Hash>, asks: seq<Ask>) {
    && |requests| == |asks|
    && forall i :: 0 <= i < |asks| ==> asks[i].hash == requests[i] && AskSound(asks[i])
  }

  /** Requests were added, all of them while at least the blocks of `index` were indexed. */
  ghost predicate LogGrew(was: seq<Ask>, now: seq<Ask>, index: set<Hash>) {
    |was| <= |now| && now[..|was|] == was && forall i :: |was| <= i < |now| ==> index <= now[i].index
  }

  lemma {:induction false} LogSame(asks: seq<Ask>, index: set<Hash>)
    ensures LogGrew(asks, asks, index)
  {}

  lemma {:induction false} LogJoin(a: seq<Ask>, b: seq<Ask>, c: seq<Ask>, index: set<Hash>, more: set<Hash>)
    requires LogGrew(a, b, index) && LogGrew(b, c, more) && index <= more
    ensures LogGrew(a, c, index)
  {
    forall i | |a| <= i < |c| ensures index <= c[i].index {
      assert i < |b| ==> c[..|b|][i] == b[i];
    }
    assert c[..|a|] == c[..|b|][..|a|];
  }

  lemma {:induction false} LogLess(a: seq<Ask>, b: seq<Ask>, index: set<Hash>, more: set<Hash>)
    requires LogGrew(a, b, more) && index <= more
    ensures LogGrew(a, b, index)
  {}

  /** Requests keep what was asked before. */
  lemma {:induction false} LogRequests(requests: seq<Hash>, asks: seq<Ask>, more: seq<Hash>, grown: seq<Ask>, index: set<Hash>)
    requires Logged(requests, asks) && Logged(more, grown) && LogGrew(asks, grown, index)
    ensures requests <= more
  {
    forall i | 0 <= i < |requests| ensures requests[i] == more[i] {
      assert grown[..|asks|][i] == asks[i];
    }
  }

  /** The first position in the list of `hash` that holds an entry awaiting it. */
  ghost predicate FirstAt(w: World, entries: map<nat, Entry>, forward: seq<seq<nat>>, hash: Hash, i: nat) {
    HitAt(w, entries, forward, hash, i) && forall k :: 0 <= k < i ==> !HitAt(w, entries, forward, hash, k)
  }

  ghost predicate HitAt(w: World, entries: map<nat, Entry>, forward: seq<seq<nat>>, hash: Hash, i: nat) {
    && |forward| == BUCKETS && i < |forward[Bucket(hash)]|
    && forward[Bucket(hash)][i] in entries && AwaitsHash(w, entries[forward[Bucket(hash)][i]], hash)
  }

  /** A chase came first among what was asked for since. */
  ghost predicate ChasedFirst(w: World, m: map<nat, Entry>, start: Hash, t: int, was: seq<Hash>, now: seq<Hash>) {
    exists mid :: Chased(w, m, start, t, was, mid) && mid <= now
  }

  /** Entry `q`, taken out and found to lack a further reference, was filed again and its chain chased. */
  ghost predicate Refiling(w: World, on: bool, index: set<Hash>, entries: map<nat, Entry>, q: nat, id: nat, t: int, was: seq<Hash>, now: seq<Hash>) {
    q in entries ==>
      var x := entries[q].block; var v := Judge(w, x, index);
      on && v.Missing? && !Waiting(entries - {q}, x) ==>
        && v.field < |w.links(x)|
        && ChasedFirst(w, (entries - {q})[id := Entry(x, v.field, t)], w.links(x)[v.field], t, was, now)
  }

  /** What releasing the first waiter of `b` asks for. */
  ghost predicate Released(w: World, on: bool, index: set<Hash>, entries: map<nat, Entry>, forward: seq<seq<nat>>, id: nat, b: Hash, t: int, was: seq<Hash>, now: seq<Hash>) {
    forall i: nat :: FirstAt(w, entries, forward, b, i) ==> ReleasedAt(w, on, index, entries, forward, id, b, t, was, now, i)
  }

  ghost predicate ReleasedAt(w: World, on: bool, index: set<Hash>, entries: map<nat, Entry>, forward: seq<seq<nat>>, id: nat, b: Hash, t: int, was: seq<Hash>, now: seq<Hash>, i: nat) {
    && |forward| == BUCKETS && i < |forward[Bucket(b)]|
    && Refiling(w, on, index, entries, forward[Bucket(b)][i], id, t, was, now)
  }

  lemma {:induction false} HitInside(w: World, entries: map<nat, Entry>, forward: seq<seq<nat>>, hash: Hash, i: nat)
    requires HitAt(w, entries, forward, hash, i)
    ensures |forward| == BUCKETS && i < |forward[Bucket(hash)]|
  {}

  lemma {:induction false} FirstOnly(w: World, entries: map<nat, Entry>, forward: seq<seq<nat>>, hash: Hash, i: nat, j: nat)
    requires FirstAt(w, entries, forward, hash, i) && FirstAt(w, entries, forward, hash, j)
    ensures i == j
  {
    hide HitAt;
  }

  lemma {:induction false} ReleasedOne(w: World, on: bool, index: set<Hash>, entries: map<nat, Entry>, forward: seq<seq<nat>>, id: nat, b: Hash, t: int, was: seq<Hash>, now: seq<Hash>, i: nat)
    requires |forward| == BUCKETS && i < |forward[Bucket(b)]| && FirstAt(w, entries, forward, b, i)
    requires Refiling(w, on, index, entries, forward[Bucket(b)][i], id, t, was, now)
    ensures Released(w, on, index, entries, forward, id, b, t, was, now)
  {
    hide HitAt, Refiling, FirstAt, Bucket;
    forall j: nat | FirstAt(w, entries, forward, b, j) ensures j == i {
      FirstOnly(w, entries, forward, b, i, j);
    }
  }

  lemma {:induction false} ReleasedMore(w: World, on: bool, index: set<Hash>, entries: map<nat, Entry>, forward: seq<seq<nat>>, id: nat, b: Hash, t: int, was: seq<Hash>, now: seq<Hash>, more: seq<Hash>)
    requires Released(w, on, index, entries, forward, id, b, t, was, now) && now <= more
    ensures Released(w, on, index, entries, forward, id, b, t, was, more)
  {
    hide Refiling, FirstAt, Bucket;
    forall i: nat | FirstAt(w, entries, forward, b, i) ensures ReleasedAt(w, on, index, entries, forward, id, b, t, was, more, i) {
      assert ReleasedAt(w, on, index, entries, forward, id, b, t, was, now, i);
      RefilingMore(w, on, index, entries, forward[Bucket(b)][i], id, t, was, now, more);
    }
  }

  lemma {:induction false} RefilingMore(w: World, on: bool, index: set<Hash>, entries: map<nat, Entry>, q: nat, id: nat, t: int, was: seq<Hash>, now: seq<Hash>, more: seq<Hash>)
    requires Refiling(w, on, index, entries, q, id, t, was, now) && now <= more
    ensures Refiling(w, on, index, entries, q, id, t, was, more)
  {
    hide Chased, Waiting, Judge;
  }

  lemma {:induction false} NoneReleased(w: World, on: bool, index: set<Hash>, entries: map<nat, Entry>, forward: seq<seq<nat>>, id: nat, b: Hash, t: int, now: seq<Hash>)
    requires forall q :: q in entries ==> !AwaitsHash(w, entries[q], b)
    ensures Released(w, on, index, entries, forward, id, b, t, now, now)
  {}

  /** The first turn of the release, by what adding the released block did. */
  lemma {:induction false} RefiledFirst(w: World, on: bool, index: set<Hash>, entries: map<nat, Entry>, q: nat, id: nat, t: int, was: seq<Hash>, now: seq<Hash>)
    requires q in entries
    requires var x := entries[q].block; var v := Judge(w, x, index); var rest := entries - {q};
             on && v.Missing? && !Waiting(rest, x) ==>
               && v.field < |w.links(x)| && Chased(w, rest[id := Entry(x, v.field, t)], w.links(x)[v.field], t, was, now)
    ensures Refiling(w, on, index, entries, q, id, t, was, now)
  {
    hide Chased, Waiting, Judge;
    assert now <= now;
  }

  lemma {:induction false} LogOne(requests: seq<Hash>, asks: seq<Ask>, h: Hash, index: set<Hash>, released: set<Hash>, entries: map<nat, Entry>)
    requires Logged(requests, asks) && !Waiting(entries, h) && (h in index <==> h in released)
    ensures Logged(requests + [h], asks + [Ask(h, index, released, WaitingBlocks(entries))])
  {}

  /** Walking on from a missing hash one comes to an indexed one only where waiters are being released. */
  lemma {:induction false} ChainEnd(w: World, index: set<Hash>, delivered: set<Hash>, released: set<Hash>, entries: map<nat, Entry>, start: Hash, h: Hash, n: nat)
    requires EntriesSound(w, index, delivered, released, entries) && Leads(w, entries, start, h, n)
    requires start !in index && released <= index
    ensures h in index <==> h in released
  {
    hide ReadyTo;
    if n > 0 {
      var q :| q in entries && AwaitsHash(w, entries[q], h) && Leads(w, entries, start, entries[q].block, n - 1);
      assert EntrySound(w, index, delivered, released, entries[q]);
    }
  }

  /** What a chase from `start` adds to the requests: the end of the chain, or nothing if the chain is silenced. */
  ghost predicate Chased(w: World, entries: map<nat, Entry>, start: Hash, t: int, was: seq<Hash>, now: seq<Hash>) {
    || (now == was && exists n, q :: Silenced(w, entries, start, t, q, n))
    || (exists n, h :: Leads(w, entries, start, h, n) && !Waiting(entries, h) && now == was + [h])
  }

  ghost predicate OneEach(entries: map<nat, Entry>) {
    forall q, r :: q in entries && r in entries && entries[q].block == entries[r].block ==> q == r
  }

  /** Entries whose reference has arrived. */
  ghost function Due(w: World, index: set<Hash>, entries: map<nat, Entry>): set<nat> {
    set q | q in entries && entries[q].nfield < |w.links(entries[q].block)| && Awaited(w, entries[q]) in index
  }

  /** The block was filed, or its entry kept. */
  lemma {:induction false} Pushed(w: World, index: set<Hash>, delivered: set<Hash>, released: set<Hash>, m: map<nat, Entry>, n: map<nat, Entry>, b: Hash, i: nat, t: int, q: nat)
    requires Sound(w, true, index, delivered, released, {b}, m) && b in delivered && Judge(w, b, index) == Missing(i)
    requires if Waiting(m, b) then Alike(m, n) else q !in m && n == m[q := Entry(b, i, t)]
    ensures Sound(w, true, index, delivered, released, {}, n)
    ensures |n| <= |m| || (|n| == |m| + 1 && |Due(w, index, n)| <= |Due(w, index, m)|)
  {
    hide Judge, EntriesSound, IndexSound, Due, Alike;
    if Waiting(m, b) {
      assert Settled(w, index, delivered, {}, m);
      Rechecked(w, index, delivered, released, m, n);
    } else {
      OneMore(m, q, Entry(b, i, t));
      NewEntrySound(w, index, delivered, released, m, b, i, t, q);
      assert n[q].block == b;
      forall c | c in delivered && Waiting(m, c) ensures Waiting(n, c) {
        var r :| r in m && m[r].block == c;
        assert n[r].block == c;
      }
    }
  }

  lemma {:induction false} NewEntrySound(w: World, index: set<Hash>, delivered: set<Hash>, released: set<Hash>, m: map<nat, Entry>, b: Hash, i: nat, t: int, q: nat)
    requires EntriesSound(w, index, delivered, released, m) && b in delivered && Judge(w, b, index) == Missing(i)
    requires !Waiting(m, b) && q !in m
    ensures EntriesSound(w, index, delivered, released, m[q := Entry(b, i, t)])
    ensures Due(w, index, m[q := Entry(b, i, t)]) == Due(w, index, m)
  {
    hide Judge, ReadyTo;
    MissingIsFirst(w, b, index, i);
    var n := m[q := Entry(b, i, t)];
    forall r | r in n ensures EntrySound(w, index, delivered, released, n[r]) {
      assert r in m ==> EntrySound(w, index, delivered, released, m[r]);
    }
  }

  lemma {:induction false} MissingIsFirst(w: World, b: Hash, index: set<Hash>, i: nat)
    requires Judge(w, b, index) == Missing(i)
    ensures b !in index && w.wellFormed(b) && i < |w.links(b)| && w.links(b)[i] !in index && ReadyTo(w, b, index, i)
  {
    ScanMeaning(w, b, index, 0);
  }

  lemma {:induction false} Rechecked(w: World, index: set<Hash>, delivered: set<Hash>, released: set<Hash>, m: map<nat, Entry>, n: map<nat, Entry>)
    requires Sound(w, true, index, delivered, released, {}, m) && Alike(m, n)
    ensures Sound(w, true, index, delivered, released, {}, n)
    ensures |n| == |m| && Due(w, index, n) == Due(w, index, m)
  {
    hide Judge, EntriesSound, Waiting, Alike, Due;
    AlikeFacts(m, n);
    AlikeDue(w, index, m, n);
    AlikeSound(w, index, delivered, released, m, n);
  }

  lemma {:induction false} AlikeDue(w: World, index: set<Hash>, m: map<nat, Entry>, n: map<nat, Entry>)
    requires Alike(m, n)
    ensures |n| == |m| && Due(w, index, n) == Due(w, index, m)
  {
    assert |m| == |m.Keys| && |n| == |n.Keys|;
  }

  lemma {:induction false} AlikeSound(w: World, index: set<Hash>, delivered: set<Hash>, released: set<Hash>, m: map<nat, Entry>, n: map<nat, Entry>)
    requires EntriesSound(w, index, delivered, released, m) && Alike(m, n)
    ensures EntriesSound(w, index, delivered, released, n)
  {
    hide ReadyTo;
    forall q | q in n ensures EntrySound(w, index, delivered, released, n[q]) {
      assert EntrySound(w, index, delivered, released, m[q]);
    }
  }

  /** An entry taken out of the tables: its block is in hand. */
  lemma {:induction false} Withdraw(w: World, on: bool, index: set<Hash>, delivered: set<Hash>, released: set<Hash>, m: map<nat, Entry>, q: nat)
    requires Sound(w, on, index, delivered, released, {}, m) && q in m
    ensures m[q].block in delivered && NotDue(w, index, m - {q}, m[q].block)
    ensures Sound(w, on, index, delivered, released, {m[q].block}, m - {q})
  {
    hide Judge, ReadyTo;
    forall c | c != m[q].block && Waiting(m, c) ensures Waiting(m - {q}, c) {
      var r :| r in m && m[r].block == c;
      assert r in m - {q};
    }
  }

  lemma {:induction false} NothingDue(w: World, on: bool, index: set<Hash>, delivered: set<Hash>, released: set<Hash>, b: Hash, m: map<nat, Entry>)
    requires Sound(w, on, index, delivered, released + {b}, {}, m)
    requires forall q :: q in m ==> !AwaitsHash(w, m[q], b)
    ensures Sound(w, on, index, delivered, released, {}, m)
  {}

  lemma {:induction false} DueDrops(w: World, index: set<Hash>, m: map<nat, Entry>, q: nat, b: Hash)
    requires q in m && AwaitsHash(w, m[q], b) && b in index
    ensures |m - {q}| == |m| - 1 && |Due(w, index, m - {q})| == |Due(w, index, m)| - 1
  {
    assert (m - {q}).Keys == m.Keys - {q};
    assert |m| == |m.Keys| && |m - {q}| == |(m - {q}).Keys|;
    assert Due(w, index, m - {q}) == Due(w, index, m) - {q};
    assert q in Due(w, index, m);
  }

  method Position(l: seq<nat>, q: nat) returns (i: nat)
    requires q in l
    ensures i < |l| && l[i] == q
  {
    i := 0;
    while l[i] != q
      invariant i < |l| && q in l[i..]
      decreases |l| - i
    {
      i := i + 1;
    }
  }

  class Sync {
    const w: World
    const syncOn: bool
    var index: set<Hash>
    var entries: map<nat, Entry>        // the allocated `struct sync_block`s
    var forward: seq<seq<nat>>          // g_sync_hash
    var reverse: seq<seq<nat>>          // g_sync_hash_r
    var nwaitsync: int
    var nextId: nat
    var requests: seq<Hash>             // calls of xdag_request_block
    ghost var delivered: set<Hash>
    ghost var asks: seq<Ask>            // the circumstances of each request

    ghost predicate Tables()
      reads this`entries, this`forward, this`reverse, this`nwaitsync, this`nextId
    {
      InOrder(w, entries, forward, reverse, nwaitsync, nextId)
    }

    /** `released`: blocks whose waiters are being released. `hand`: the block being added. */
    ghost predicate Inside(released: set<Hash>, hand: set<Hash>)
      reads this
    {
      && Tables() && Sound(w, syncOn, index, delivered, released, hand, entries)
      && released <= index && Logged(requests, asks)
    }

    /** What holds between deliveries. */
    ghost predicate Valid()
      reads this
    {
      Inside({}, {})
    }

    constructor (w: World, syncOn: bool)
      ensures Valid() && this.w == w && this.syncOn == syncOn && index == {} && entries == map[] && delivered == {}
      ensures nextId == 0 && requests == [] && forall j :: 0 <= j < BUCKETS ==> forward[j] == []
    {
      this.w, this.syncOn := w, syncOn;
      index, entries, delivered, asks := {}, map[], {}, [];
      forward, reverse := seq(BUCKETS, _ => []), seq(BUCKETS, _ => []);
      nwaitsync, nextId, requests := 0, 0, [];
    }

    /** Looks a block up among the entries filed under `hash` (the loop at client/sync.c:54-66). */
    method LookAmong(hash: Hash, b: Hash) returns (found: bool, q: nat)
      requires Tables()
      ensures found ==> q in entries && entries[q].block == b
      ensures !found ==> forall r :: r in entries && entries[r].block == b ==> Awaited(w, entries[r]) != hash
    {
      hide Filing, Bucket;
      var j, i := Bucket(hash), 0;
      while i < |forward[j]|
        invariant 0 <= i <= |forward[j]|
        invariant forall k :: 0 <= k < i ==> forward[j][k] in entries && entries[forward[j][k]].block != b
      {
        q := forward[j][i];
        InForward(w, entries, forward, reverse, j, q);
        if entries[q].block == b {
          return true, q;
        }
        i := i + 1;
      }
      forall r | r in entries && entries[r].block == b ensures Awaited(w, entries[r]) != hash {
        Listed(w, entries, forward, reverse, r);
      }
      return false, 0;
    }

    /** `push_block_nolock`: a block already waiting keeps its entry; otherwise one is filed. */
    method Push(b: Hash, nfield: nat, t: int) returns (res: bool)
      requires Tables() && nfield < |w.links(b)|
      requires OneEach(entries) && forall q :: q in entries && entries[q].block == b ==> entries[q].nfield == nfield
      modifies this`entries, this`forward, this`reverse, this`nwaitsync, this`nextId
      ensures Tables()
      ensures forall q :: q in old(entries) && old(entries)[q].block == b ==>
        res == (t - old(entries)[q].t >= REQ_PERIOD) && Touched(old(entries), entries, q, if res then t else old(entries)[q].t)
      ensures !Waiting(old(entries), b) ==> res
      ensures if Waiting(old(entries), b) then Alike(old(entries), entries)
              else old(nextId) !in old(entries) && entries == old(entries)[old(nextId) := Entry(b, nfield, t)]
      ensures !Waiting(old(entries), b) ==> nextId == old(nextId) + 1 && FiledFront(old(forward), forward, w.links(b)[nfield], old(nextId))
    {
      hide InOrder, Bucket, Alike;
      InOrderFacts(w, entries, forward, reverse, nwaitsync, nextId);
      var found, q := LookAmong(w.links(b)[nfield], b);
      if found {
        res := t - entries[q].t >= REQ_PERIOD;
        var e := entries[q].(nfield := nfield);
        if res { e := e.(t := t); }
        TouchInOrder(w, entries, forward, reverse, nwaitsync, nextId, q, e);
        entries := entries[q := e];
        return;
      }
      var e := Entry(b, nfield, t);
      q := nextId;
      nextId := nextId + 1;
      FileInOrder(w, entries, forward, reverse, nwaitsync, q, e);
      entries := entries[q := e];
      var j, k := Bucket(w.links(b)[nfield]), Bucket(b);
      forward := forward[j := [q] + forward[j]];
      reverse := reverse[k := [q] + reverse[k]];
      nwaitsync := nwaitsync + 1;
      res := true;
    }

    /** Looks a block up in the table by own hash (the loop at client/sync.c:151-162). */
    method LookUp(hash: Hash) returns (found: bool, q: nat)
      requires Tables()
      ensures found <==> Waiting(entries, hash)
      ensures found ==> q in entries && entries[q].block == hash
    {
      hide Filing, Bucket;
      var j, i := Bucket(hash), 0;
      while i < |reverse[j]|
        invariant 0 <= i <= |reverse[j]|
        invariant forall k :: 0 <= k < i ==> reverse[j][k] in entries && entries[reverse[j][k]].block != hash
      {
        q := reverse[j][i];
        InReverse(w, entries, forward, reverse, j, q);
        if entries[q].block == hash {
          return true, q;
        }
        i := i + 1;
      }
      forall r | r in entries ensures entries[r].block != hash {
        Listed(w, entries, forward, reverse, r);
      }
      return false, 0;
    }

    /** Notes that the block of entry `q` was asked for. */
    method Refresh(q: nat, t: int)
      requires Tables() && q in entries && t - entries[q].t >= REQ_PERIOD
      modifies this`entries
      ensures Tables() && Alike(old(entries), entries) && |Stale(entries, t)| < |Stale(old(entries), t)|
      ensures entries == old(entries)[q := old(entries[q]).(t := t)] && entries[q].nfield < |w.links(entries[q].block)|
    {
      hide InOrder, Stale, Alike;
      InOrderFacts(w, entries, forward, reverse, nwaitsync, nextId);
      TouchInOrder(w, entries, forward, reverse, nwaitsync, nextId, q, entries[q].(t := t));
      StaleDrops(entries, q, t);
      entries := entries[q := entries[q].(t := t)];
    }

    /** Follows the chain of waiting blocks from a missing hash and asks for the block at its end, unless it asked lately. */
    method Chase(start: Hash, t: int, ghost released: set<Hash>)
      requires Tables() && Logged(requests, asks) && EntriesSound(w, index, delivered, released, entries)
      requires start !in index && released <= index
      modifies this`entries, this`requests, this`asks
      ensures Tables() && Alike(old(entries), entries) && Logged(requests, asks)
      ensures Chased(w, old(entries), start, t, old(requests), requests)
      ensures |old(requests)| <= |requests| && forall h :: h in requests[|old(requests)|..] ==> (h in index <==> h in released)
      ensures !Waiting(old(entries), start) ==> entries == old(entries) && requests == old(requests) + [start]
      ensures LogGrew(old(asks), asks, index)
      ensures Walked(w, old(entries), entries, start, t, old(requests), requests)
    {
      hide Tables, Stale, Alike, Leads, Waiting, Dated, Silenced, EntriesSound, Logged, OneEach;
      AlikeSelf(entries);
      DatedSelf(w, entries, start, t);
      UniqueEntries(w, index, delivered, released, entries);
      var hash := start;
      ghost var n := 0;
      LeadsHere(w, entries, start);
      var found, q := LookUp(hash);
      while found
        invariant Tables() && Alike(old(entries), entries) && requests == old(requests) && asks == old(asks)
        invariant found <==> Waiting(entries, hash)
        invariant found ==> q in entries && entries[q].block == hash
        invariant Leads(w, old(entries), start, hash, n) && Dated(w, old(entries), entries, start, t, n)
        invariant !Waiting(old(entries), start) ==> !found && entries == old(entries) && hash == start
        decreases |Stale(entries, t)|
      {
        if t - entries[q].t < REQ_PERIOD {
          AskedLately(w, old(entries), entries, start, t, q, n);
          assert Ended(w, old(entries), start, t, old(requests), requests, n);
          return;
        }
        ghost var was := entries;
        DatedStep(w, old(entries), entries, start, t, q, n);
        Refresh(q, t);
        AlikeJoin(old(entries), was, entries);
        LeadsOn(w, old(entries), entries, start, q, n);
        hash := Awaited(w, entries[q]);
        n := n + 1;
        found, q := LookUp(hash);
      }
      AlikeFacts(old(entries), entries);
      ChainEnd(w, index, delivered, released, old(entries), start, hash, n);
      LogOne(requests, asks, hash, index, released, old(entries));
      asks := asks + [Ask(hash, index, released, WaitingBlocks(old(entries)))];
      requests := requests + [hash];
      assert Ended(w, old(entries), start, t, old(requests), requests, n);
    }

    /** Position `i` of the list of `hash` holds an entry that awaits it. */
    ghost predicate Hit(hash: Hash, i: nat)
      reads this`entries, this`forward
    {
      HitAt(w, entries, forward, hash, i)
    }

    /** Looks for an entry that awaits `hash` (the loop at client/sync.c:101-102). */
    method LookAwaiting(hash: Hash) returns (found: bool, i: nat)
      requires Tables()
      ensures found ==> Hit(hash, i) && FirstAt(w, entries, forward, hash, i)
      ensures !found ==> forall q :: q in entries ==> !AwaitsHash(w, entries[q], hash)
    {
      hide Filing, Bucket;
      var j := Bucket(hash);
      i := 0;
      while i < |forward[j]|
        invariant 0 <= i <= |forward[j]|
        invariant forall k :: 0 <= k < i ==> forward[j][k] in entries && !AwaitsHash(w, entries[forward[j][k]], hash)
      {
        var q := forward[j][i];
        InForward(w, entries, forward, reverse, j, q);
        if Awaited(w, entries[q]) == hash {
          return true, i;
        }
        i := i + 1;
      }
      forall q | q in entries ensures !AwaitsHash(w, entries[q], hash) {
        Listed(w, entries, forward, reverse, q);
      }
      return false, 0;
    }

    /** Takes the entry at position `i` of the list of `hash` out of both tables. */
    method Unlink(hash: Hash, i: nat) returns (e: Entry)
      requires Tables() && i < |forward[Bucket(hash)]|
      modifies this`entries, this`forward, this`reverse, this`nwaitsync
      ensures Tables()
      ensures var q := old(forward)[Bucket(hash)][i]; q in old(entries) && e == old(entries)[q] && entries == old(entries) - {q}
    {
      hide InOrder, Bucket, Removed;
      InOrderFacts(w, entries, forward, reverse, nwaitsync, nextId);
      var j := Bucket(hash);
      var q := forward[j][i];
      InForward(w, entries, forward, reverse, j, q);
      e := entries[q];
      Listed(w, entries, forward, reverse, q);
      var k := Bucket(e.block);
      var l := Position(reverse[k], q);
      UnfileInOrder(w, entries, forward, reverse, nwaitsync, nextId, q, j, i, k, l);
      forward := forward[j := Removed(forward[j], i)];
      nwaitsync := nwaitsync - 1;
      reverse := reverse[k := Removed(reverse[k], l)];
      entries := entries - {q};
    }

    /** `xdag_sync_pop_block_nolock`: everything that awaits the indexed block `b` is tried again. */
    method Pop(b: Hash, t: int, ghost released: set<Hash>)
      requires Inside(released + {b}, {}) && b in index
      modifies this
      ensures Inside(released, {}) && delivered == old(delivered) && old(index) <= index
      ensures forall q :: q in entries ==> !AwaitsHash(w, entries[q], b)
      ensures |entries| <= old(|entries|)
      ensures LogGrew(old(asks), asks, old(index))
      ensures Released(w, syncOn, old(index), old(entries), old(forward), old(nextId), b, t, old(requests), requests)
      decreases |entries|, |Due(w, index, entries)|, 1
    {
      hide Tables, Sound, Due, Bucket, Logged, LogGrew, Released, Refiling, FirstAt, HitAt;
      LogSame(asks, index);
      ghost var first := true;
      var found, i := LookAwaiting(b);
      if !found {
        NoneReleased(w, syncOn, index, entries, forward, nextId, b, t, requests);
      }
      while found
        invariant Inside(released + {b}, {}) && b in index && delivered == old(delivered) && old(index) <= index
        invariant |entries| < old(|entries|) || (|entries| == old(|entries|) && |Due(w, index, entries)| <= old(|Due(w, index, entries)|))
        invariant found ==> Hit(b, i)
        invariant !found ==> forall q :: q in entries ==> !AwaitsHash(w, entries[q], b)
        invariant LogGrew(old(asks), asks, old(index))
        invariant first && found ==> entries == old(entries) && forward == old(forward) && nextId == old(nextId) && index == old(index)
        invariant first && found ==> requests == old(requests) && FirstAt(w, entries, forward, b, i)
        invariant !found || !first ==>
          Released(w, syncOn, old(index), old(entries), old(forward), old(nextId), b, t, old(requests), requests)
        decreases |entries|, |Due(w, index, entries)|
      {
        ghost var logged, seen, known := asks, requests, index;
        HitInside(w, entries, forward, b, i);
        Retry(b, i, t, released);
        LogJoin(old(asks), logged, asks, old(index), known);
        if first {
          ReleasedOne(w, syncOn, old(index), old(entries), old(forward), old(nextId), b, t, old(requests), requests, i);
        } else {
          LogRequests(seen, logged, requests, asks, known);
          ReleasedMore(w, syncOn, old(index), old(entries), old(forward), old(nextId), b, t, old(requests), seen, requests);
        }
        first := false;
        found, i := LookAwaiting(b);
      }
      NothingDue(w, syncOn, index, delivered, released, b, entries);
    }

    /** One turn of the loop: an entry that awaits `b` is taken out and its block added again (client/sync.c:103-115). */
    method Retry(b: Hash, i: nat, t: int, ghost released: set<Hash>)
      requires Inside(released + {b}, {}) && b in index && Hit(b, i) && |forward| == BUCKETS && i < |forward[Bucket(b)]|
      modifies this
      ensures Inside(released + {b}, {}) && delivered == old(delivered) && old(index) <= index
      ensures |entries| < old(|entries|) || (|entries| == old(|entries|) && |Due(w, index, entries)| < old(|Due(w, index, entries)|))
      ensures LogGrew(old(asks), asks, old(index))
      ensures Refiling(w, syncOn, old(index), old(entries), old(forward)[Bucket(b)][i], old(nextId), t, old(requests), requests)
      decreases |entries|, |Due(w, index, entries)|, 0
    {
      hide Tables, Sound, Due, Bucket, Logged, LogGrew, Released, Refiling, Waiting, Chased, FiledFront, Judge;
      ghost var q := forward[Bucket(b)][i];
      DueDrops(w, index, entries, q, b);
      Withdraw(w, syncOn, index, delivered, released + {b}, entries, q);
      var e := Unlink(b, i);
      Add(e.block, t, released + {b});
      RefiledFirst(w, syncOn, old(index), old(entries), q, old(nextId), t, old(requests), requests);
    }

    /** The end of `xdag_sync_add_block_nolock`, for a block whose reference in field `i` is missing. */
    method Hold(b: Hash, i: nat, t: int, ghost released: set<Hash>)
      requires syncOn && Inside(released, {b}) && b in delivered && NotDue(w, index, entries, b) && Judge(w, b, index) == Missing(i)
      modifies this`entries, this`forward, this`reverse, this`nwaitsync, this`nextId, this`requests, this`asks
      ensures Inside(released, {}) && i < |w.links(b)|
      ensures |entries| <= old(|entries|) ||
        (|entries| == old(|entries|) + 1 && |Due(w, index, entries)| <= old(|Due(w, index, entries)|))
      ensures |old(requests)| <= |requests| && forall h :: h in requests[|old(requests)|..] ==> (h in index <==> h in released)
      ensures !Waiting(old(entries), b) ==>
        && nextId == old(nextId) + 1 && FiledFront(old(forward), forward, w.links(b)[i], old(nextId))
        && Chased(w, old(entries)[old(nextId) := Entry(b, i, t)], w.links(b)[i], t, old(requests), requests)
        && (!Waiting(old(entries)[old(nextId) := Entry(b, i, t)], w.links(b)[i]) ==>
              entries == old(entries)[old(nextId) := Entry(b, i, t)] && requests == old(requests) + [w.links(b)[i]])
      ensures LogGrew(old(asks), asks, index)
    {
      hide Tables, Sound, Due, Judge, NotDue, Logged, Waiting, FiledFront, Chased, Alike, LogGrew;
      LogSame(asks, index);
      SoundEntries(w, syncOn, index, delivered, released, {b}, entries);
      MissingField(w, index, delivered, released, entries, b);
      MissingIsFirst(w, b, index, i);
      ghost var was := entries;
      var asked := Push(b, i, t);
      Pushed(w, index, delivered, released, was, entries, b, i, t, old(nextId));
      if asked {
        ghost var filed := entries;
        SoundEntries(w, syncOn, index, delivered, released, {}, entries);
        Chase(w.links(b)[i], t, released);
        Rechecked(w, index, delivered, released, filed, entries);
      }
    }

    /** `xdag_sync_add_block_nolock`. */
    method Add(b: Hash, t: int, ghost released: set<Hash>)
      requires Inside(released, {b}) && b in delivered && NotDue(w, index, entries, b)
      modifies this
      ensures Inside(released, {}) && delivered == old(delivered) && old(index) <= index
      ensures Judge(w, b, old(index)).Added? ==> b in index
      ensures |entries| <= old(|entries|) ||
        (|entries| == old(|entries|) + 1 && |Due(w, index, entries)| <= old(|Due(w, index, entries)|))
      ensures Judge(w, b, old(index)).Missing? ==>
        && index == old(index) && |old(requests)| <= |requests|
        && forall h :: h in requests[|old(requests)|..] ==> (h in index <==> h in released)
      ensures var v := Judge(w, b, old(index)); syncOn && v.Missing? && !Waiting(old(entries), b) ==>
        && v.field < |w.links(b)| && nextId == old(nextId) + 1
        && FiledFront(old(forward), forward, w.links(b)[v.field], old(nextId))
        && var filed := old(entries)[old(nextId) := Entry(b, v.field, t)];
           && Chased(w, filed, w.links(b)[v.field], t, old(requests), requests)
           && (!Waiting(filed, w.links(b)[v.field]) ==> entries == filed && requests == old(requests) + [w.links(b)[v.field]])
      ensures LogGrew(old(asks), asks, old(index))
      ensures Judge(w, b, old(index)).Added? ==>
        && LogGrew(old(asks), asks, old(index) + {b})
        && Released(w, syncOn, old(index) + {b}, old(entries), old(forward), old(nextId), b, t, old(requests), requests)
      decreases |entries| + 1, |Due(w, index, entries)|, 1
    {
      hide Tables, Sound, Due, Judge, NotDue, Logged, Waiting, FiledFront, Chased, LogGrew, Released;
      LogSame(asks, index);
      var v := Judge(w, b, index);
      match v
      case Added =>
        Accepted(w, syncOn, index, delivered, released, entries, b);
        index := index + {b};
        Pop(b, t, released);
        LogLess(old(asks), asks, old(index), old(index) + {b});
      case Exists =>
        AlreadyIndexed(w, syncOn, index, delivered, released, entries, b);
        Pop(b, t, released);
      case Missing(i) =>
        if syncOn {
          Hold(b, i, t, released);
        } else {
          HandDropped(w, index, delivered, released, entries, b);
        }
      case Bad =>
        Rejected(w, syncOn, index, delivered, released, entries, b);
    }

    /**
     * A block arrives from outside (`xdag_sync_add_block`). A block that is asked for while no
     * waiters are being released is not indexed.
     */
    method Deliver(b: Hash, t: int)
      requires Valid()
      modifies this
      ensures Valid() && delivered == old(delivered) + {b} && old(index) <= index
      ensures Judge(w, b, old(index)).Missing? ==>
        index == old(index) && |old(requests)| <= |requests| && forall h :: h in requests[|old(requests)|..] ==> h !in index
      ensures var v := Judge(w, b, old(index)); syncOn && v.Missing? && !Waiting(old(entries), b) ==>
        && v.field < |w.links(b)| && nextId == old(nextId) + 1
        && FiledFront(old(forward), forward, w.links(b)[v.field], old(nextId))
        && var filed := old(entries)[old(nextId) := Entry(b, v.field, t)];
           && Chased(w, filed, w.links(b)[v.field], t, old(requests), requests)
           && (!Waiting(filed, w.links(b)[v.field]) ==> entries == filed && requests == old(requests) + [w.links(b)[v.field]])
      ensures LogGrew(old(asks), asks, old(index))
      ensures Judge(w, b, old(index)).Added? ==>
        && b in index && LogGrew(old(asks), asks, old(index) + {b})
        && Released(w, syncOn, old(index) + {b}, old(entries), old(forward), old(nextId), b, t, old(requests), requests)
    {
      hide Tables, Sound, Judge, Logged, Waiting, Chased, FiledFront, LogGrew, Released;
      Arrives(w, syncOn, index, delivered, entries, b);
      delivered := delivered + {b};
      Add(b, t, {});
    }

    /**
     * Blocks arriving in any order, with repeats, leave an index and a wait list that
     * depend only on which blocks arrived; what was asked of a closed set follows from
     * ClosedDelivery.
     */
    method DeliverAll(blocks: seq<Hash>, clock: seq<int>)
      requires Valid() && syncOn && delivered == {} && |clock| == |blocks|
      modifies this
      ensures Valid() && delivered == set b | b in blocks
      ensures index == set b | b in delivered && Grounded(w, b, delivered)
      ensures forall b :: Waiting(entries, b) <==> b in delivered && Judge(w, b, index).Missing?
    {
      hide Tables, Sound, Grounded, Judge, Waiting, Logged, Chased, FiledFront;
      var i := 0;
      while i < |blocks|
        invariant 0 <= i <= |blocks| && Valid() && delivered == set b | b in blocks[..i]
      {
        assert blocks[..i + 1] == blocks[..i] + [blocks[i]];
        Deliver(blocks[i], clock[i]);
        i := i + 1;
      }
      assert blocks[..i] == blocks;
      RestDetermined(w, index, delivered, entries);
    }
  }

  ghost function Stale(entries: map<nat, Entry>, t: int): set<nat> {
    set q | q in entries && t - entries[q].t >= REQ_PERIOD
  }

  lemma {:induction false} StaleDrops(entries: map<nat, Entry>, q: nat, t: int)
    requires q in entries && t - entries[q].t >= REQ_PERIOD
    ensures |Stale(entries[q := entries[q].(t := t)], t)| < |Stale(entries, t)|
  {
    assert Stale(entries[q := entries[q].(t := t)], t) == Stale(entries, t) - {q};
    assert q in Stale(entries, t);
  }

  /** `n` steps from `start` along the entries, from a waiting block to what it awaits, end at `h`. */
  ghost predicate Leads(w: World, entries: map<nat, Entry>, start: Hash, h: Hash, n: nat)
    decreases n
  {
    if n == 0 then start == h
    else exists q :: q in entries && AwaitsHash(w, entries[q], h) && Leads(w, entries, start, entries[q].block, n - 1)
  }

  /** The walk from `start` met `x` within its first `n` steps. */
  ghost predicate Met(w: World, m: map<nat, Entry>, start: Hash, x: Hash, n: nat) {
    exists k :: 0 <= k < n && Leads(w, m, start, x, k)
  }

  /** Exactly the entries that the walk has met got the new time. */
  ghost predicate Dated(w: World, m: map<nat, Entry>, n: map<nat, Entry>, start: Hash, t: int, steps: nat) {
    m.Keys == n.Keys && forall q :: q in m ==> n[q].t == if Met(w, m, start, m[q].block, steps) then t else m[q].t
  }

  /** The walk from `start` dated the entries it met; it was silenced by the next one, or asked for what is not waiting. */
  ghost predicate Walked(w: World, m: map<nat, Entry>, n: map<nat, Entry>, start: Hash, t: int, was: seq<Hash>, now: seq<Hash>) {
    exists steps: nat :: Dated(w, m, n, start, t, steps) && Ended(w, m, start, t, was, now, steps)
  }

  ghost predicate Ended(w: World, m: map<nat, Entry>, start: Hash, t: int, was: seq<Hash>, now: seq<Hash>, steps: nat) {
    || (now == was && exists q :: Silenced(w, m, start, t, q, steps))
    || (exists h :: Leads(w, m, start, h, steps) && !Waiting(m, h) && now == was + [h])
  }

  /** A walk stands at one block at a time. */
  lemma {:induction false} LeadsOnce(w: World, m: map<nat, Entry>, start: Hash, h: Hash, g: Hash, n: nat)
    requires OneEach(m) && Leads(w, m, start, h, n) && Leads(w, m, start, g, n)
    ensures h == g
    decreases n
  {
    if n > 0 {
      var q :| q in m && AwaitsHash(w, m[q], h) && Leads(w, m, start, m[q].block, n - 1);
      var r :| r in m && AwaitsHash(w, m[r], g) && Leads(w, m, start, m[r].block, n - 1);
      LeadsOnce(w, m, start, m[q].block, m[r].block, n - 1);
    }
  }

  /** Entry `q` ends the walk: its block was asked for lately, or the walk goes round in a circle. */
  ghost predicate Silenced(w: World, m: map<nat, Entry>, start: Hash, t: int, q: nat, n: nat) {
    && q in m && Leads(w, m, start, m[q].block, n)
    && (t - m[q].t < REQ_PERIOD || Met(w, m, start, m[q].block, n))
  }

  lemma {:induction false} DatedSelf(w: World, m: map<nat, Entry>, start: Hash, t: int)
    ensures Dated(w, m, m, start, t, 0)
  {}

  lemma {:induction false} DatedStep(w: World, m: map<nat, Entry>, n: map<nat, Entry>, start: Hash, t: int, q: nat, k: nat)
    requires Dated(w, m, n, start, t, k) && Alike(m, n) && OneEach(m) && q in n && Leads(w, m, start, n[q].block, k)
    ensures Dated(w, m, n[q := n[q].(t := t)], start, t, k + 1)
  {
    hide Leads;
    forall r | r in m ensures Met(w, m, start, m[r].block, k + 1) <==> r == q || Met(w, m, start, m[r].block, k) {
      if r == q {
        assert Leads(w, m, start, m[r].block, k);
      } else if Met(w, m, start, m[r].block, k + 1) {
        var i :| 0 <= i < k + 1 && Leads(w, m, start, m[r].block, i);
        if i == k {
          LeadsOnce(w, m, start, m[r].block, m[q].block, k);
        }
      }
    }
  }

  lemma {:induction false} AskedLately(w: World, m: map<nat, Entry>, n: map<nat, Entry>, start: Hash, t: int, q: nat, k: nat)
    requires Dated(w, m, n, start, t, k) && Alike(m, n) && q in n && t - n[q].t < REQ_PERIOD && Leads(w, m, start, n[q].block, k)
    ensures Silenced(w, m, start, t, q, k)
  {
    hide Leads, Met;
  }

  lemma {:induction false} UniqueEntries(w: World, index: set<Hash>, delivered: set<Hash>, released: set<Hash>, entries: map<nat, Entry>)
    requires EntriesSound(w, index, delivered, released, entries)
    ensures OneEach(entries)
  {}

  lemma {:induction false} LeadsHere(w: World, entries: map<nat, Entry>, start: Hash)
    ensures Leads(w, entries, start, start, 0)
  {}

  lemma {:induction false} LeadsOn(w: World, m: map<nat, Entry>, n: map<nat, Entry>, start: Hash, q: nat, k: nat)
    requires Alike(m, n) && q in n && n[q].nfield < |w.links(n[q].block)| && Leads(w, m, start, n[q].block, k)
    ensures Leads(w, m, start, Awaited(w, n[q]), k + 1)
  {
    assert AwaitsHash(w, m[q], Awaited(w, n[q]));
  }

  predicate AwaitsHash(w: World, e: Entry, h: Hash) {
    e.nfield < |w.links(e.block)| && Awaited(w, e) == h
  }

  // ---------------------------------------------------------------- a request for an indexed block

  /** Three blocks: 2 refers to 1, and 3 refers to 1 and then to 2. */
  function Triangle(): World {
    World(h => if h == 2 then [1] else if h == 3 then [1, 2] else [], h => h, _ => true, _ => true)
  }

  /** The entries after block 3 has been released and filed again, under block 2. */
  ghost predicate Refiled(m: map<nat, Entry>) {
    m == map[0 := Entry(2, 0, 0), 2 := Entry(3, 1, REQ_PERIOD)]
  }

  lemma {:induction false} TriangleChain(m: map<nat, Entry>, h: Hash, n: nat)
    requires Refiled(m) && Leads(Triangle(), m, 2, h, n)
    ensures (n == 0 && h == 2) || (n == 1 && h == 1)
    decreases n
  {
    if n > 0 {
      var q :| q in m && AwaitsHash(Triangle(), m[q], h) && Leads(Triangle(), m, 2, m[q].block, n - 1);
      TriangleChain(m, m[q].block, n - 1);
    }
  }

  /** The chase from block 2 is not silenced and ends at block 1. */
  lemma {:induction false} TriangleChase(m: map<nat, Entry>, was: seq<Hash>, now: seq<Hash>)
    requires Refiled(m) && Chased(Triangle(), m, 2, REQ_PERIOD, was, now)
    ensures now == was + [1]
  {
    hide Leads;
    assert m[0].block == 2 && Waiting(m, 2);
    if n, q :| Silenced(Triangle(), m, 2, REQ_PERIOD, q, n) {
      TriangleChain(m, m[q].block, n);
      assert false;
    }
    var n, h :| Leads(Triangle(), m, 2, h, n) && !Waiting(m, h) && now == was + [h];
    TriangleChain(m, h, n);
  }

  lemma {:induction false} TriangleVerdicts()
    ensures var w := Triangle();
      && Judge(w, 2, {}) == Missing(0) && Judge(w, 3, {}) == Missing(0)
      && Judge(w, 1, {}) == Added && Judge(w, 3, {1}) == Missing(1)
      && w.links(2) == [1] && w.links(3) == [1, 2]
  {
    var w := Triangle();
    assert Scan(w, 3, {1}, 1) == Missing(1);
  }

  /** Blocks 2 and 3 have arrived at time 0; both wait for block 1, block 3 first in the list. */
  ghost predicate TwoWaiting(s: Sync)
    reads s
  {
    && s.w == Triangle() && s.syncOn && s.index == {} && s.delivered == {2, 3} && s.requests == [1, 1]
    && s.entries == map[0 := Entry(2, 0, 0), 1 := Entry(3, 0, 0)]
    && s.nextId == 2 && |s.forward| == BUCKETS && s.forward[Bucket(1)] == [1, 0]
  }

  lemma {:induction false} FrontOf(was: seq<seq<nat>>, now: seq<seq<nat>>, hash: Hash, q: nat)
    requires FiledFront(was, now, hash, q)
    ensures |was| == |now| == BUCKETS && now[Bucket(hash)] == [q] + was[Bucket(hash)]
  {}

  lemma {:induction false} NobodyWaits(m: map<nat, Entry>, h: Hash)
    requires forall q :: q in m ==> m[q].block != h
    ensures !Waiting(m, h)
  {}

  method TwoArrive() returns (s: Sync)
    ensures fresh(s) && s.Valid() && TwoWaiting(s)
  {
    hide Judge, Sound, Logged, Filing, Chased, Bucket, Triangle, Waiting, FiledFront, Sync.Tables;
    TriangleVerdicts();
    s := new Sync(Triangle(), true);
    ghost var f := s.forward;
    var one: map<nat, Entry> := map[0 := Entry(2, 0, 0)];
    NobodyWaits(map[], 2);
    NobodyWaits(one, 1);
    s.Deliver(2, 0);
    assert s.entries == one;
    FrontOf(f, s.forward, 1, 0);
    f := s.forward;
    var two: map<nat, Entry> := map[0 := Entry(2, 0, 0), 1 := Entry(3, 0, 0)];
    NobodyWaits(one, 3);
    NobodyWaits(two, 1);
    s.Deliver(3, 0);
    assert s.entries == two;
    FrontOf(f, s.forward, 1, 1);
  }

  /** Releasing block 3 asks for block 1 a third time. */
  lemma {:induction false} TriangleReleased(forward: seq<seq<nat>>, now: seq<Hash>)
    requires |forward| == BUCKETS && forward[Bucket(1)] == [1, 0]
    requires Released(Triangle(), true, {1}, map[0 := Entry(2, 0, 0), 1 := Entry(3, 0, 0)], forward, 2, 1, REQ_PERIOD, [1, 1], now)
    ensures |now| > 2 && now[2] == 1
  {
    hide Chased, Judge, Triangle, Bucket, Refiling, Waiting;
    var m: map<nat, Entry> := map[0 := Entry(2, 0, 0), 1 := Entry(3, 0, 0)];
    TriangleVerdicts();
    assert m[1] == Entry(3, 0, 0) && AwaitsHash(Triangle(), m[1], 1);
    assert HitAt(Triangle(), m, forward, 1, 0);
    assert FirstAt(Triangle(), m, forward, 1, 0);
    assert ReleasedAt(Triangle(), true, {1}, m, forward, 2, 1, REQ_PERIOD, [1, 1], now, 0);
    TriangleRefiled(m, now);
  }

  lemma {:induction false} TriangleRefiled(m: map<nat, Entry>, now: seq<Hash>)
    requires m == map[0 := Entry(2, 0, 0), 1 := Entry(3, 0, 0)]
    requires Refiling(Triangle(), true, {1}, m, 1, 2, REQ_PERIOD, [1, 1], now)
    ensures |now| > 2 && now[2] == 1
  {
    hide Chased, Judge, Triangle, Waiting;
    TriangleVerdicts();
    assert m - {1} == map[0 := Entry(2, 0, 0)];
    NobodyWaits(m - {1}, 3);
    var filed: map<nat, Entry> := map[0 := Entry(2, 0, 0), 2 := Entry(3, 1, REQ_PERIOD)];
    assert (m - {1})[2 := Entry(3, 1, REQ_PERIOD)] == filed;
    var mid :| Chased(Triangle(), filed, 2, REQ_PERIOD, [1, 1], mid) && mid <= now;
    TriangleChase(filed, [1, 1], mid);
    assert mid == [1, 1, 1];
  }

  /**
   * Blocks 2 and 3 wait for block 1, which arrives REQ_PERIOD later. Its first waiter to be released is block 3,
   * which is filed again under block 2, and following block 2 the node asks for block 1, which it has just indexed.
   */
  method AskedWhileReleased() returns (s: Sync)
    ensures fresh(s) && s.Valid() && s.delivered == {1, 2, 3}
    ensures |s.requests| == |s.asks| > 2 && s.requests[2] == s.asks[2].hash == 1 && 1 in s.asks[2].index
  {
    hide Judge, Sound, Logged, Filing, Chased, Bucket, Triangle, Waiting, FiledFront, Sync.Tables, Released;
    TriangleVerdicts();
    s := TwoArrive();
    ghost var asked, was, forward := s.asks, s.requests, s.forward;
    LogSize(was, asked);
    s.Deliver(1, REQ_PERIOD);
    assert {} + {1} == {1};
    TriangleReleased(forward, s.requests);
    LogAt(s.requests, s.asks, 2);
  }

  lemma {:induction false} LogSize(requests: seq<Hash>, asks: seq<Ask>)
    requires Logged(requests, asks)
    ensures |requests| == |asks|
  {}

  lemma {:induction false} LogAt(requests: seq<Hash>, asks: seq<Ask>, i: nat)
    requires Logged(requests, asks) && i < |requests|
    ensures |requests| == |asks| && asks[i].hash == requests[i]
  {}
}
