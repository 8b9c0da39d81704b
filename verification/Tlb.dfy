/** mmutest.c: the 64-entry TLB of the 24KEc. Only bits 13 to 31 of an address are ever compared,
    so a tag is the number of a pair of 4 KB pages, and a span says which of its 19 bits count. */
module TlbEntries {
  import opened Machine
  import opened Bits

  type Pair = p: int | 0 <= p < 0x80000

  /** ~(mask | 0x1fff) of a PageMask: for each bit, whether it is compared. */
  type Span = s: seq<bool> | |s| == 19 witness Trues(19)

  function Trues(n: nat): (r: seq<bool>)
    ensures |r| == n && forall b :: 0 <= b < n ==> r[b]
  {
    if n == 0 then [] else [true] + Trues(n - 1)
  }

  const FULL: Span := Trues(19)

  datatype Entry = Entry(tag: Pair, span: Span, lo0: nat, lo1: nat)

  /** The hardware's comparison. */
  ghost predicate Matches(e: Entry, p: Pair) {
    forall b :: 0 <= b < 19 && e.span[b] ==> Bit(p, b) == Bit(e.tag, b)
  }

  /** ((x ^ y) & span) == 0 */
  ghost predicate Conflict(x: Pair, y: Pair, span: Span) {
    forall b :: 0 <= b < 19 && span[b] ==> Bit(x, b) == Bit(y, b)
  }

  /** The bits both entries compare are the same. */
  ghost predicate Overlap(e: Entry, f: Entry) {
    forall b :: 0 <= b < 19 && e.span[b] && f.span[b] ==> Bit(e.tag, b) == Bit(f.tag, b)
  }

  lemma Pow19()
    ensures Pow2(19) == 0x80000
  {
    assert Pow2(4) == 16;
    assert Pow2(8) == 256;
    assert Pow2(12) == 0x1000;
    assert Pow2(16) == 0x10000;
  }

  /** With every bit compared, to conflict is to be equal. */
  lemma FullConflict(x: Pair, y: Pair)
    ensures Conflict(x, y, FULL) <==> x == y
  {
    if Conflict(x, y, FULL) {
      Pow19();
      assert forall b :: 0 <= b < 19 ==> FULL[b];
      SameBits(x, y, 19);
    }
  }

  lemma FullOverlap(e: Entry, f: Entry)
    requires e.span == FULL
    ensures Overlap(e, f) <==> Conflict(e.tag, f.tag, f.span)
  {
    assert forall b :: 0 <= b < 19 ==> e.span[b];
  }

  function FromBits(s: seq<bool>): (r: nat)
    ensures r < Pow2(|s|)
  {
    if s == [] then 0 else (if s[0] then 1 else 0) + 2 * FromBits(s[1..])
  }

  lemma {:induction false} BitsOf(s: seq<bool>, b: nat)
    requires b < |s|
    ensures Bit(FromBits(s), b) == if s[b] then 1 else 0
  {
    if b > 0 {
      BitsOf(s[1..], b - 1);
      assert FromBits(s) / 2 == FromBits(s[1..]);
    }
  }

  /** Two entries overlap exactly when some address matches both, which is a machine check. */
  lemma OverlapIsDouble(e: Entry, f: Entry)
    ensures Overlap(e, f) <==> exists p: Pair :: Matches(e, p) && Matches(f, p)
  {
    if Overlap(e, f) {
      var s := Either(e, f, 19);
      Pow19();
      var p: Pair := FromBits(s);
      forall b | 0 <= b < 19 ensures Bit(p, b) == Bit(if e.span[b] then e.tag else f.tag, b) {
        BitsOf(s, b);
        BitIsBit(if e.span[b] then e.tag else f.tag, b);
      }
      assert Matches(e, p) && Matches(f, p);
    }
  }

  /** A tag that agrees with both entries, bit by bit. */
  function Either(e: Entry, f: Entry, n: nat): (r: seq<bool>)
    requires n <= 19
    ensures |r| == n && forall b :: 0 <= b < n ==> r[b] == (Bit(if e.span[b] then e.tag else f.tag, b) == 1)
  {
    if n == 0 then [] else Either(e, f, n - 1) + [Bit(if e.span[n - 1] then e.tag else f.tag, n - 1) == 1]
  }
}

/** The software side: rewriting the TLB so that no address ever matches two entries. */
module Tlb {
  import opened Arith
  import opened Machine
  import opened Bits
  import opened TlbEntries

  const KSEG0: Pair := 0x40000
  const KSEG1: Pair := 0x50000

  /** The k-th tag tried for an entry, in 32-bit arithmetic. */
  function Candidate(idx: nat, k: nat): Pair {
    (KSEG0 + idx + 64 * k) % 0x80000
  }

  ghost predicate IsCandidate(idx: nat, t: Pair) {
    exists k :: t == Candidate(idx, k)
  }

  /** Some other entry of the table covers the tag. */
  ghost predicate Taken(hw: seq<Entry>, skip: int, t: Pair) {
    exists j :: 0 <= j < |hw| && j != skip && Conflict(t, hw[j].tag, hw[j].span)
  }

  /** Every tag the search for the entry will ever try is covered by another entry. */
  ghost predicate Stuck(hw: seq<Entry>, idx: nat) {
    forall k :: Taken(hw, idx, Candidate(idx, k))
  }

  /** Some later entry covers the tag. */
  ghost predicate TakenAfter(hw: seq<Entry>, idx: nat, t: Pair) {
    exists j :: idx < j < |hw| && Conflict(t, hw[j].tag, hw[j].span)
  }

  /** The first n tags of the entry are covered by entries that come after it in the table. */
  ghost predicate Covered(hw: seq<Entry>, idx: nat, n: nat) {
    forall k :: 0 <= k < n ==> TakenAfter(hw, idx, Candidate(idx, k))
  }

  /** All different tags of a search, and those of them that lie in kseg0. */
  const TAGS: nat := 8192
  const KSEG0_TAGS: nat := 1024

  /** The tags of an entry in kseg0 are the first ones. */
  lemma TagInKseg0(idx: nat, k: nat)
    requires idx < 64 && k < TAGS
    ensures KSEG0 <= Candidate(idx, k) < KSEG1 <==> k < KSEG0_TAGS
  {
  }

  /** The widest PageMask of the 24KEc leaves bits 29 to 31 of an address compared. */
  const WIDEST: Span := [false, false, false, false, false, false, false, false, false, false, false, false,
                         false, false, false, false, true, true, true]

  function Halved(x: nat, n: nat): nat {
    if n == 0 then x else Halved(x / 2, n - 1)
  }

  lemma {:induction false} BitAbove(x: nat, b: nat, n: nat)
    ensures Bit(x, b + n) == Bit(Halved(x, n), b)
    decreases n
  {
    if n > 0 {
      BitAbove(x / 2, b, n - 1);
    }
  }

  lemma HalvedFour(x: nat, n: nat)
    ensures Halved(x, n + 4) == Halved(x / 16, n)
  {
    assert Halved(x, n + 4) == Halved(x / 2, n + 3) == Halved(x / 4, n + 2) == Halved(x / 8, n + 1);
  }

  lemma Segment(x: nat)
    ensures Halved(x, 16) == x / 0x1_0000
  {
    HalvedFour(x, 12);
    HalvedFour(x / 16, 8);
    HalvedFour(x / 256, 4);
    HalvedFour(x / 0x1000, 0);
  }

  /** An entry of that width covers every tag of its own 512 MB segment. */
  lemma WidestCovers(t: Pair, e: Entry)
    requires e.span == WIDEST && t / 0x1_0000 == e.tag / 0x1_0000
    ensures Conflict(t, e.tag, e.span)
  {
    hide Halved, Bit;
    Segment(t);
    Segment(e.tag);
    forall b | 16 <= b < 19 ensures Bit(t, b) == Bit(e.tag, b) {
      BitAbove(t, b - 16, 16);
      BitAbove(e.tag, b - 16, 16);
    }
  }

  /** One such entry over kseg0 keeps the tags of every entry before it out of kseg0. */
  lemma WideKseg0(hw: seq<Entry>, idx: nat, j: nat)
    requires idx < j < |hw| && idx < 64 && hw[j].span == WIDEST && hw[j].tag == KSEG0
    ensures Covered(hw, idx, KSEG0_TAGS)
  {
    hide Conflict;
    forall k | 0 <= k < KSEG0_TAGS ensures TakenAfter(hw, idx, Candidate(idx, k)) {
      TagInKseg0(idx, k);
      WidestCovers(Candidate(idx, k), hw[j]);
    }
  }

  /** Eight of them, one for each segment, keep the flush from ending. */
  lemma WideMasksStick(hw: seq<Entry>, idx: nat, j: nat)
    requires idx < j && j + 8 <= |hw|
    requires forall s :: 0 <= s < 8 ==> hw[j + s].span == WIDEST && hw[j + s].tag == s * 0x1_0000
    ensures Covered(hw, idx, TAGS)
  {
    hide Conflict, Candidate;
    forall k | 0 <= k < TAGS ensures TakenAfter(hw, idx, Candidate(idx, k)) {
      var s := Candidate(idx, k) / 0x1_0000;
      assert 0 <= s < 8 && s * 0x1_0000 / 0x1_0000 == s;
      WidestCovers(Candidate(idx, k), hw[j + s]);
    }
  }

  /** The entries rewritten so far are never in the way of the next: the tags of two searches differ. */
  lemma OnlyLater(hw: seq<Entry>, idx: nat, k: nat)
    requires idx < |hw| <= 64 && Flushed(hw, idx)
    ensures Taken(hw, idx, Candidate(idx, k)) <==> TakenAfter(hw, idx, Candidate(idx, k))
  {
    hide Conflict, Candidate;
    var t := Candidate(idx, k);
    forall j | 0 <= j < idx ensures !Conflict(t, hw[j].tag, hw[j].span) {
      var m :| hw[j].tag == Candidate(j, m);
      Residue(idx, k);
      Residue(j, m);
      FullConflict(t, hw[j].tag);
    }
  }

  lemma LaterOnly(hw: seq<Entry>, idx: nat)
    requires idx < |hw| <= 64 && Flushed(hw, idx)
    ensures forall k :: 0 <= k ==> (TakenAfter(hw, idx, Candidate(idx, k)) <==> Taken(hw, idx, Candidate(idx, k)))
  {
    hide Taken, TakenAfter, Candidate;
    forall k | 0 <= k
      ensures TakenAfter(hw, idx, Candidate(idx, k)) <==> Taken(hw, idx, Candidate(idx, k))
    {
      OnlyLater(hw, idx, k);
    }
  }

  lemma AllCovered(hw: seq<Entry>, idx: nat)
    requires idx < |hw| <= 64 && Flushed(hw, idx) && Covered(hw, idx, TAGS)
    ensures Stuck(hw, idx)
  {
    hide Taken, TakenAfter, Candidate;
    LaterOnly(hw, idx);
    forall k: nat ensures Taken(hw, idx, Candidate(idx, k)) {
      CandidatesRepeat(idx, k);
    }
  }

  /** The first tag not covered tells for every number of tags whether they are all covered. */
  lemma FirstUncovered(hw: seq<Entry>, idx: nat, k: nat)
    requires Covered(hw, idx, k) && !TakenAfter(hw, idx, Candidate(idx, k))
    ensures forall n: nat :: Covered(hw, idx, n) <==> n <= k
  {
    hide TakenAfter, Candidate;
  }

  lemma SameLater(hw: seq<Entry>, was: seq<Entry>, idx: nat)
    requires idx < |hw| == |was| && hw[idx..] == was[idx..]
    ensures forall n :: Covered(hw, idx, n) <==> Covered(was, idx, n)
  {
    hide Candidate, Conflict;
    assert forall j :: idx <= j < |hw| ==> hw[j] == hw[idx..][j - idx] == was[j];
    forall k | 0 <= k
      ensures TakenAfter(hw, idx, Candidate(idx, k)) <==> TakenAfter(was, idx, Candidate(idx, k))
    {
    }
  }

  lemma Residue(idx: nat, k: nat)
    requires idx < 64
    ensures Candidate(idx, k) % 64 == idx
  {
    var x := KSEG0 + idx + 64 * k;
    DivBounds(x, 0x80000);
    assert x % 0x80000 == 64 * (KSEG0 / 64 + k - x / 0x80000 * 8192) + idx;
  }

  /** The first n entries are invalid 4 KB entries with tags of the search. */
  ghost predicate Flushed(hw: seq<Entry>, n: nat)
    requires n <= |hw|
  {
    forall a :: 0 <= a < n ==> hw[a].span == FULL && hw[a].lo0 == 0 && hw[a].lo1 == 0 && IsCandidate(a, hw[a].tag)
  }

  /** The first n entries overlap no entry at all. */
  ghost predicate Apart(hw: seq<Entry>, n: nat)
    requires n <= |hw|
  {
    forall a, b :: 0 <= a < n && 0 <= b < |hw| && a != b ==> !Overlap(hw[a], hw[b])
  }

  lemma ApartStep(hw: seq<Entry>, i: nat, t: Pair)
    requires i < |hw| && Apart(hw, i) && !Taken(hw, i, t)
    ensures Apart(hw[i := Entry(t, FULL, 0, 0)], i + 1)
  {
    var e := Entry(t, FULL, 0, 0);
    forall b | 0 <= b < |hw| && b != i ensures !Overlap(e, hw[b]) && !Overlap(hw[b], e) {
      FullOverlap(e, hw[b]);
    }
  }

  /** No address matches two entries. */
  ghost predicate Single(hw: seq<Entry>) {
    forall i, j :: 0 <= i < j < |hw| ==> !Overlap(hw[i], hw[j])
  }

  ghost predicate AllFull(hw: seq<Entry>) {
    forall j :: 0 <= j < |hw| ==> hw[j].span == FULL
  }

  ghost predicate Distinct(hw: seq<Entry>) {
    forall i, j :: 0 <= i < j < |hw| ==> hw[i].tag != hw[j].tag
  }

  lemma SingleIsDistinct(hw: seq<Entry>)
    requires AllFull(hw)
    ensures Single(hw) <==> Distinct(hw)
  {
    forall i, j | 0 <= i < j < |hw| ensures Overlap(hw[i], hw[j]) <==> hw[i].tag == hw[j].tag {
      FullOverlap(hw[i], hw[j]);
      FullConflict(hw[i].tag, hw[j].tag);
    }
  }

  /** After 8192 tags the search is back at the first: a search that fails on those never ends. */
  lemma CandidatesRepeat(idx: nat, k: nat)
    ensures Candidate(idx, k) == Candidate(idx, k % 8192)
  {
    assert KSEG0 + idx + 64 * k == KSEG0 + idx + 64 * (k % 8192) + k / 8192 * 0x80000;
    AddMultiple(KSEG0 + idx + 64 * (k % 8192), k / 8192, 0x80000);
  }

  /** The tags of all entries but one. */
  function Others(tags: seq<Pair>, skip: int): (s: set<Pair>)
    ensures forall j :: 0 <= j < |tags| && j != skip ==> tags[j] in s
    ensures |s| <= |tags| - (if 0 <= skip < |tags| then 1 else 0)
  {
    if tags == [] then {}
    else var n := |tags| - 1;
         if n == skip then Others(tags[..n], skip) else Others(tags[..n], skip) + {tags[n]}
  }

  /** An entry that compares every bit matches its own page only. */
  lemma FullMatch(e: Entry, p: Pair)
    requires e.span == FULL
    ensures Matches(e, p) <==> p == e.tag
  {
    FullConflict(p, e.tag);
    assert forall b :: 0 <= b < 19 ==> e.span[b];
  }

  /** Single says that no address matches two entries. */
  lemma SingleMatches(hw: seq<Entry>)
    ensures Single(hw) <==> forall i, j, p: Pair :: 0 <= i < j < |hw| ==> !(Matches(hw[i], p) && Matches(hw[j], p))
  {
    forall i, j | 0 <= i < j < |hw|
      ensures Overlap(hw[i], hw[j]) <==> exists p: Pair :: Matches(hw[i], p) && Matches(hw[j], p)
    {
      OverlapIsDouble(hw[i], hw[j]);
    }
  }

  class Table {
    /** The hardware entries, and the software copies of their tags and spans. */
    var hw: seq<Entry>
    const tag: array<Pair>
    const span: array<Span>

    ghost predicate Synced()
      reads this, tag, span
    {
      && |hw| == 64 && tag.Length == 64 && span.Length == 64
      && forall j :: 0 <= j < 64 ==> tag[j] == hw[j].tag && span[j] == hw[j].span
    }

    /** What the flush leaves and every later call keeps. */
    ghost predicate Clean()
      reads this, tag, span
    {
      Synced() && AllFull(hw) && Single(hw)
    }

    /** The TLB at power-on: any 64 entries. */
    constructor (garbage: seq<Entry>)
      requires |garbage| == 64
      ensures hw == garbage && tag.Length == 64 && span.Length == 64 && fresh(tag) && fresh(span)
    {
      hw := garbage;
      tag := new Pair[64](_ => 0);
      span := new Span[64](_ => FULL);
    }

    /** tag_conflict */
    method TagConflict(skip: int, t: Pair) returns (c: bool)
      requires Synced()
      ensures c <==> Taken(hw, skip, t)
    {
      var j := 0;
      while j < 64
        invariant 0 <= j <= 64
        invariant forall i :: 0 <= i < j && i != skip ==> !Conflict(t, tag[i], span[i])
      {
        if j != skip {
          var same := SameWhere(t, tag[j], span[j]);
          if same {
            return true;
          }
        }
        j := j + 1;
      }
      return false;
    }

    method SameWhere(x: Pair, y: Pair, s: Span) returns (same: bool)
      ensures same <==> Conflict(x, y, s)
    {
      var b := 0;
      while b < 19
        invariant 0 <= b <= 19
        invariant forall i :: 0 <= i < b && s[i] ==> Bit(x, i) == Bit(y, i)
      {
        if s[b] && Bit(x, b) != Bit(y, b) {
          return false;
        }
        b := b + 1;
      }
      return true;
    }

    /** tlb_write with mask 0, and the software copies of what it writes. */
    method Write(idx: nat, t: Pair, lo0: nat, lo1: nat)
      requires Synced() && idx < 64
      modifies this`hw, tag, span
      ensures Synced() && hw == old(hw)[idx := Entry(t, FULL, lo0, lo1)]
    {
      hw := hw[idx := Entry(t, FULL, lo0, lo1)];
      tag[idx] := t;
      span[idx] := FULL;
    }

    /** tlb_flush_all, from any contents. It ends exactly if no entry has all its tags covered by the
        contents of later ones, and then the whole TLB is rewritten by invalid entries no two of which
        overlap. An entry's tag is in kseg0 exactly if not all of its tags there were covered. Where all
        tags are, the search never ends (ok is false). */
    method FlushAll() returns (ok: bool)
      requires |hw| == 64 && tag.Length == 64 && span.Length == 64
      modifies this`hw, tag, span
      ensures ok ==> Clean() && Flushed(hw, 64)
      ensures ok <==> forall i :: 0 <= i < 64 ==> !Covered(old(hw), i, TAGS)
      ensures ok ==> forall i :: 0 <= i < 64 ==> (KSEG0 <= hw[i].tag < KSEG1 <==> !Covered(old(hw), i, KSEG0_TAGS))
      ensures !ok ==> exists i :: 0 <= i < 64 && Stuck(hw, i)
    {
      hide Covered, Stuck, Taken, IsCandidate, Overlap;
      ReadAll();
      var i := 0;
      while i < 64
        invariant 0 <= i <= 64 && Synced() && Flushed(hw, i) && Apart(hw, i)
        invariant hw[i..] == old(hw[i..])
        invariant forall j :: 0 <= j < i ==> !Covered(old(hw), j, TAGS)
        invariant forall j :: 0 <= j < i ==> (KSEG0 <= hw[j].tag < KSEG1 <==> !Covered(old(hw), j, KSEG0_TAGS))
      {
        var t;
        ok, t := Search(i);
        SameLater(hw, old(hw), i);
        if !ok {
          return;
        }
        ApartStep(hw, i, t);
        Write(i, t, 0, 0);
        i := i + 1;
      }
      ok := true;
    }

    /** The first loop: what the hardware holds. */
    method ReadAll()
      requires |hw| == 64 && tag.Length == 64 && span.Length == 64
      modifies tag, span
      ensures Synced()
    {
      var i := 0;
      while i < 64
        invariant 0 <= i <= 64
        invariant forall j :: 0 <= j < i ==> tag[j] == hw[j].tag && span[j] == hw[j].span
      {
        tag[i] := hw[i].tag;
        span[i] := hw[i].span;
        i := i + 1;
      }
    }

    /** The search of the flush: a tag that no other entry covers, if the loop ever ends. */
    method Search(idx: nat) returns (ok: bool, t: Pair)
      requires Synced() && idx < 64 && Flushed(hw, idx)
      ensures ok ==> IsCandidate(idx, t) && !Taken(hw, idx, t)
      ensures ok <==> !Covered(hw, idx, TAGS)
      ensures ok ==> (KSEG0 <= t < KSEG1 <==> !Covered(hw, idx, KSEG0_TAGS))
      ensures !ok ==> Stuck(hw, idx)
    {
      hide Taken, TakenAfter, Stuck;
      t := KSEG0 + idx;
      var k := 0;
      assert Candidate(idx, 0) == t;
      LaterOnly(hw, idx);
      var c := TagConflict(idx, t);
      while c && k < TAGS
        invariant 0 <= k <= TAGS && t == Candidate(idx, k)
        invariant Covered(hw, idx, k)
        invariant c <==> Taken(hw, idx, t)
      {
        t := (t + 64) % 0x80000;
        k := k + 1;
        c := TagConflict(idx, t);
      }
      ok := !c;
      if c {
        AllCovered(hw, idx);
      } else {
        CandidatesRepeat(idx, k);
        TagInKseg0(idx, k % TAGS);
        FirstUncovered(hw, idx, k);
      }
    }

    /** The search of tlb_invalidate. With every entry a 4 KB entry it ends within 64 tags, because
        63 other entries cannot hold them all. */
    method SearchFree(idx: nat) returns (t: Pair)
      requires Clean() && idx < 64
      ensures t == FirstFree(hw, idx, 0)
    {
      hide Single, Overlap, Conflict;
      t := KSEG0 + idx;
      var k := 0;
      var c := TagConflict(idx, t);
      while c
        invariant 0 <= k <= 63 && t == Candidate(idx, k) == KSEG0 + idx + 64 * k
        invariant c <==> Taken(hw, idx, t)
        invariant FirstFree(hw, idx, k) == FirstFree(hw, idx, 0)
        invariant forall i :: 0 <= i < k ==> Taken(hw, idx, Candidate(idx, i))
        decreases 64 - k
      {
        Pigeonhole(hw, idx, k);
        t := (t + 64) % 0x80000;
        k := k + 1;
        c := TagConflict(idx, t);
      }
    }

    /** tlb_invalidate: the entry gets a free tag inside kseg0, which is never translated. */
    method Invalidate(idx: nat)
      requires Clean() && idx < 64
      modifies this`hw, tag, span
      ensures Clean() && KSEG0 <= hw[idx].tag < KSEG1
      ensures hw == old(hw)[idx := Entry(FirstFree(old(hw), idx, 0), FULL, 0, 0)]
    {
      hide Overlap, Conflict, FirstFree, Candidate, Taken;
      var t := SearchFree(idx);
      SingleIsDistinct(hw);
      FirstFreeIsFree(hw, idx, 0);
      NotTaken(hw, idx, t);
      Write(idx, t, 0, 0);
      SingleIsDistinct(hw);
    }

    /** tlb_map_pair: the entry maps the pair, and an entry that held it before is invalidated. No
        two entries overlap afterwards, unless another entry held the page and the search for that
        entry comes back to the same tag, which no page of kuseg can be. */
    method MapPair(idx: nat, page: Pair, lo0: nat, lo1: nat)
      requires Clean() && idx < 64
      modifies this`hw, tag, span
      ensures Synced() && AllFull(hw)
      ensures hw == Mapped(old(hw), idx, page, lo0, lo1)
      ensures Single(hw) <==> !ComesBack(old(hw), idx, page)
      ensures page < KSEG0 ==> Clean()
    {
      hide Probe, FirstFree, Overlap, Candidate;
      SingleIsDistinct(hw);
      MappedDistinct(hw, idx, page, lo0, lo1);
      var at := Probe(hw, page, 64);
      if at >= 0 && at != idx {
        Invalidate(at);
      }
      Write(idx, page, lo0, lo1);
      SingleIsDistinct(hw);
    }
  }

  /** tlb_probe, the TLBP instruction: the entry that matches, or -1. */
  function Probe(hw: seq<Entry>, page: Pair, n: nat): (r: int)
    requires n <= |hw|
    ensures r >= 0 ==> r < n && hw[r].tag == page
    ensures r < 0 ==> r == -1 && forall j :: 0 <= j < n ==> hw[j].tag != page
  {
    if n == 0 then -1 else if hw[n - 1].tag == page then n - 1 else Probe(hw, page, n - 1)
  }

  /** The first tag from the k-th on that no other entry holds; some tag of 64 is free. */
  ghost function FirstFree(hw: seq<Entry>, idx: nat, k: nat): Pair
    decreases 64 - k
  {
    if k >= 64 || !Taken(hw, idx, Candidate(idx, k)) then Candidate(idx, k) else FirstFree(hw, idx, k + 1)
  }

  /** Another entry holds the page, and the search for a tag to give it instead finds the page. */
  ghost predicate ComesBack(hw: seq<Entry>, idx: nat, page: Pair)
    requires |hw| == 64
  {
    var at := Probe(hw, page, 64);
    at >= 0 && at != idx && FirstFree(hw, at, 0) == page
  }

  /** It does for the first tag of an entry that holds that tag. No caller in mmutest.c maps such a page. */
  lemma FirstTagComesBack(hw: seq<Entry>, idx: nat, at: nat)
    requires |hw| == 64 && AllFull(hw) && Distinct(hw) && idx < 64 && at < 64 && at != idx
    requires hw[at].tag == Candidate(at, 0)
    ensures ComesBack(hw, idx, Candidate(at, 0)) && Candidate(at, 0) >= KSEG0
  {
    hide Conflict;
    var t := Candidate(at, 0);
    assert Probe(hw, t, 64) == at;
    forall j | 0 <= j < 64 && j != at ensures !Conflict(t, hw[j].tag, hw[j].span) {
      FullConflict(t, hw[j].tag);
    }
    assert !Taken(hw, at, t);
  }

  /** In a table no two of whose entries overlap, the entry the probe gives is the one entry the
      hardware comparison accepts, and without one no entry matches. */
  lemma ProbeMatches(hw: seq<Entry>, page: Pair)
    requires AllFull(hw) && Single(hw)
    ensures var at := Probe(hw, page, |hw|);
            forall j :: 0 <= j < |hw| ==> (Matches(hw[j], page) <==> j == at)
  {
    hide Matches, Single;
    SingleIsDistinct(hw);
    forall j | 0 <= j < |hw| ensures Matches(hw[j], page) <==> page == hw[j].tag {
      FullMatch(hw[j], page);
    }
  }

  /** The table after tlb_map_pair. */
  ghost function Mapped(hw: seq<Entry>, idx: nat, page: Pair, lo0: nat, lo1: nat): seq<Entry>
    requires |hw| == 64 && idx < 64
  {
    var at := Probe(hw, page, 64);
    var freed := if at >= 0 && at != idx then hw[at := Entry(FirstFree(hw, at, 0), FULL, 0, 0)] else hw;
    freed[idx := Entry(page, FULL, lo0, lo1)]
  }

  lemma NotTaken(hw: seq<Entry>, idx: nat, t: Pair)
    requires AllFull(hw) && !Taken(hw, idx, t)
    ensures forall j :: 0 <= j < |hw| && j != idx ==> hw[j].tag != t
  {
    forall j | 0 <= j < |hw| && j != idx ensures hw[j].tag != t {
      FullConflict(t, hw[j].tag);
    }
  }

  lemma {:induction false} FirstFreeIsFree(hw: seq<Entry>, idx: nat, k: nat)
    requires |hw| == 64 && AllFull(hw) && idx < 64 && k <= 63
    requires forall i :: 0 <= i < k ==> Taken(hw, idx, Candidate(idx, i))
    ensures !Taken(hw, idx, FirstFree(hw, idx, k)) && KSEG0 <= FirstFree(hw, idx, k) < KSEG1
    decreases 64 - k
  {
    if Taken(hw, idx, Candidate(idx, k)) {
      Pigeonhole(hw, idx, k);
      FirstFreeIsFree(hw, idx, k + 1);
    }
  }

  lemma MappedDistinct(hw: seq<Entry>, idx: nat, page: Pair, lo0: nat, lo1: nat)
    requires |hw| == 64 && idx < 64 && AllFull(hw) && Distinct(hw)
    ensures var m := Mapped(hw, idx, page, lo0, lo1);
            AllFull(m) && (Distinct(m) <==> !ComesBack(hw, idx, page)) && (page < KSEG0 ==> Distinct(m))
  {
    hide FirstFree, Candidate, Taken, Conflict;
    var m := Mapped(hw, idx, page, lo0, lo1);
    var at := Probe(hw, page, 64);
    if at >= 0 && at != idx {
      FirstFreeIsFree(hw, at, 0);
      NotTaken(hw, at, FirstFree(hw, at, 0));
      if FirstFree(hw, at, 0) == page {
        assert m[at].tag == m[idx].tag;
      }
    }
  }

  /** If the first k + 1 tags tried are all taken, then k is less than 63. */
  lemma Pigeonhole(hw: seq<Entry>, idx: nat, k: nat)
    requires |hw| == 64 && AllFull(hw) && idx < 64 && k <= 63
    requires forall i :: 0 <= i <= k ==> Taken(hw, idx, Candidate(idx, i))
    ensures k < 63
  {
    hide Taken, Candidate;
    var tried := Tried(idx, k + 1);
    forall t | t in tried ensures t in Others(Tags(hw, 64), idx) {
      GridIsCandidate(idx, t, k);
      TakenIsOther(hw, idx, t);
    }
    SubsetSize(tried, Others(Tags(hw, 64), idx));
  }

  lemma TakenIsOther(hw: seq<Entry>, idx: nat, t: Pair)
    requires |hw| == 64 && AllFull(hw) && Taken(hw, idx, t)
    ensures t in Others(Tags(hw, 64), idx)
  {
    hide Conflict;
    var j :| 0 <= j < 64 && j != idx && Conflict(t, hw[j].tag, hw[j].span);
    FullConflict(t, hw[j].tag);
    assert Tags(hw, 64)[j] == t;
  }

  lemma GridIsCandidate(idx: nat, t: Pair, k: nat)
    requires idx < 64 && k <= 63 && OnGrid(t, idx) && t < KSEG0 + idx + 64 * (k + 1)
    ensures exists i :: 0 <= i <= k && t == Candidate(idx, i)
  {
    var i := (t - KSEG0 - idx) / 64;
    assert t == KSEG0 + idx + 64 * i;
    assert t == Candidate(idx, i) && 0 <= i <= k;
  }

  function Tags(hw: seq<Entry>, n: nat): (r: seq<Pair>)
    requires n <= |hw|
    ensures |r| == n && forall j :: 0 <= j < n ==> r[j] == hw[j].tag
  {
    if n == 0 then [] else Tags(hw, n - 1) + [hw[n - 1].tag]
  }

  /** The first n tags of a search are n different tags. */
  function Tried(idx: nat, n: nat): (s: set<Pair>)
    requires idx < 64 && n <= 64
    ensures |s| == n && forall t :: t in s ==> t < KSEG0 + idx + 64 * n && OnGrid(t, idx)
  {
    if n == 0 then {} else Tried(idx, n - 1) + {KSEG0 + idx + 64 * (n - 1)}
  }

  predicate OnGrid(t: Pair, idx: nat) {
    t >= KSEG0 + idx && (t - KSEG0 - idx) % 64 == 0
  }
}

/** Demand paging behind four TLB entries: 16 pages that are mapped when they are touched. */
module Paging {
  import opened Machine
  import opened TlbEntries
  import opened Tlb

  const DEMAND_VA: nat := 0x0050_0000
  const DEMAND_SIZE: nat := 0x1_0000
  const HOME: nat := 0x0411_0000
  const IDX_FIRST: nat := 56

  /** LO_CACHED | LO_D | LO_V | LO_G */
  const MAPPED_FLAGS: nat := 31

  function EntryLo(pa: nat, flags: nat): nat {
    pa / 0x1000 * 64 + flags
  }

  /** What the hardware does with an access. */
  datatype Outcome = Phys(pa: nat) | Refill | Invalid | ReadOnly

  function Through(e: Entry, va: u32, write: bool): Outcome {
    var lo := if va / 0x1000 % 2 == 0 then e.lo0 else e.lo1;
    if lo / 2 % 2 == 0 then Invalid
    else if write && lo / 4 % 2 == 0 then ReadOnly
    else Phys(lo / 64 * 0x1000 + va % 0x1000)
  }

  /** A cached, writable, valid, global page has 0x1f in its low six bits and its number above them; the
      first word of an entry is for the even page, the second for the odd one, and without the valid bit
      neither is for anything, without the dirty bit for loads only. */
  lemma KnownWords()
    ensures EntryLo(0x0411_0000, MAPPED_FLAGS) == 0x10441f && EntryLo(0x0411_1000, MAPPED_FLAGS) == 0x10445f
    ensures var e := Entry(0x280, FULL, 0x10441f, 0x10445f);
            && Through(e, 0x0050_0123, true) == Phys(0x0411_0123)
            && Through(e, 0x0050_1123, false) == Phys(0x0411_1123)
    ensures var e := Entry(0x280, FULL, 0x10441d, 0x10441b);
            && Through(e, 0x0050_0123, false) == Invalid
            && Through(e, 0x0050_1123, true) == ReadOnly && Through(e, 0x0050_1123, false).Phys?
  {
  }

  /** By the comparison of the hardware: no entry matches, or exactly one does and decides. */
  ghost predicate HardwareGives(hw: seq<Entry>, va: u32, write: bool, o: Outcome)
    requires va < 0x8000_0000
  {
    if exists at :: 0 <= at < |hw| && Matches(hw[at], va / 0x2000) then
      exists at :: 0 <= at < |hw| && Matches(hw[at], va / 0x2000) && o == Through(hw[at], va, write) &&
                   forall j :: 0 <= j < |hw| && j != at ==> !Matches(hw[j], va / 0x2000)
    else o == Refill
  }

  function Translate(hw: seq<Entry>, va: u32, write: bool): Outcome
    requires va < 0x8000_0000
  {
    var at := Probe(hw, va / 0x2000, |hw|);
    if at < 0 then Refill else Through(hw[at], va, write)
  }

  lemma TranslateIsHardware(hw: seq<Entry>, va: u32, write: bool)
    requires va < 0x8000_0000 && AllFull(hw) && Single(hw)
    ensures forall o :: HardwareGives(hw, va, write, o) <==> o == Translate(hw, va, write)
  {
    hide Matches, Through;
    ProbeMatches(hw, va / 0x2000);
  }

  predicate InRegion(va: int) {
    DEMAND_VA <= va < DEMAND_VA + DEMAND_SIZE
  }

  /** The fixed home of the pair of pages a tag names. */
  function PairHome(page: Pair): int {
    HOME + (page * 0x2000 - DEMAND_VA)
  }

  /** The entry, if it is of a page of the region, maps the pair to its home or is invalid. */
  predicate Homed(e: Entry) {
    InRegion(e.tag * 0x2000) ==>
      || (e.lo0 == EntryLo(PairHome(e.tag), MAPPED_FLAGS) && e.lo1 == EntryLo(PairHome(e.tag) + 0x1000, MAPPED_FLAGS))
      || (e.lo0 == 0 && e.lo1 == 0)
  }

  ghost predicate AllHomed(hw: seq<Entry>) {
    forall j :: 0 <= j < |hw| ==> Homed(hw[j])
  }

  /** A hit lands at the home of the address, whichever entry it goes through. */
  lemma HitIsHome(hw: seq<Entry>, va: u32, write: bool)
    requires InRegion(va) && AllHomed(hw)
    ensures !Translate(hw, va, write).ReadOnly?
    ensures Translate(hw, va, write).Phys? ==> Translate(hw, va, write).pa == HOME + (va - DEMAND_VA)
  {
    var page := va / 0x2000;
    var at := Probe(hw, page, |hw|);
    if at >= 0 {
      assert Homed(hw[at]);
      Lo(PairHome(page));
      Lo(PairHome(page) + 0x1000);
      HomePage(va);
    }
  }

  lemma HomePage(va: u32)
    requires InRegion(va)
    ensures InRegion(va / 0x2000 * 0x2000)
    ensures (PairHome(va / 0x2000) + va / 0x1000 % 2 * 0x1000) / 0x1000 * 0x1000 + va % 0x1000 ==
            HOME + (va - DEMAND_VA)
  {
    var q := va / 0x1000;
    assert va / 0x2000 == q / 2;
  }

  /** Once its pair is mapped, an address translates to its home for loads and stores alike. */
  lemma MappedHits(hw: seq<Entry>, idx: nat, va: u32)
    requires InRegion(va) && AllHomed(hw) && Distinct(hw) && idx < |hw|
    requires hw[idx].tag == va / 0x2000 && hw[idx].lo0 == EntryLo(PairHome(va / 0x2000), MAPPED_FLAGS)
    ensures forall write :: Translate(hw, va, write) == Phys(HOME + (va - DEMAND_VA))
  {
    var home := PairHome(va / 0x2000);
    Lo(home);
    Lo(home + 0x1000);
    assert Homed(hw[idx]) && Probe(hw, va / 0x2000, |hw|) == idx;
    forall write ensures Translate(hw, va, write).Phys? {
      HitIsHome(hw, va, write);
    }
    HitIsHome(hw, va, false);
    HitIsHome(hw, va, true);
  }

  lemma Lo(pa: nat)
    ensures var lo := EntryLo(pa, MAPPED_FLAGS); lo / 64 == pa / 0x1000 && lo / 2 % 2 == 1 && lo / 4 % 2 == 1
  {
    var q := pa / 0x1000;
    assert 64 * q + 31 == 2 * (32 * q + 15) + 1;
    assert 64 * q + 31 == 4 * (16 * q + 7) + 3;
  }

  /** What a program and the rest of the kernel may do while the region is in use. */
  datatype Op =
    | Load(va: u32)
    | Store(va: u32, x: Byte)
    | Evict(idx: nat)
    | MapOther(idx: nat, page: Pair, lo0: nat, lo1: nat)
  {
    predicate Allowed() {
      match this
      case Load(va) => InRegion(va)
      case Store(va, _) => InRegion(va)
      case Evict(idx) => idx < 64
      case MapOther(idx, page, _, _) => idx < 64 && page < KSEG0 && !InRegion(page * 0x2000)
    }
  }

  /** The region as plain memory: its contents after a run, and what the loads of the run see. */
  function MemoryAfter(m: seq<Byte>, ops: seq<Op>): (r: seq<Byte>)
    requires |m| == DEMAND_SIZE && forall i :: 0 <= i < |ops| ==> ops[i].Allowed()
    ensures |r| == DEMAND_SIZE
  {
    if ops == [] then m
    else var was := MemoryAfter(m, ops[..|ops| - 1]);
         var op := ops[|ops| - 1];
         assert op.Allowed();
         if op.Store? then was[op.va - DEMAND_VA := op.x] else was
  }

  function Loads(m: seq<Byte>, ops: seq<Op>): seq<Byte>
    requires |m| == DEMAND_SIZE && forall i :: 0 <= i < |ops| ==> ops[i].Allowed()
  {
    if ops == [] then []
    else var was := MemoryAfter(m, ops[..|ops| - 1]);
         var op := ops[|ops| - 1];
         assert op.Allowed();
         Loads(m, ops[..|ops| - 1]) + (if op.Load? then [was[op.va - DEMAND_VA]] else [])
  }

  class Pager {
    const tlb: Table
    var ram: seq<Byte>
    var victim: u32
    var faults: u32

    ghost predicate Valid()
      reads this, tlb, tlb.tag, tlb.span
    {
      tlb.Clean() && AllHomed(tlb.hw) && |ram| >= HOME + DEMAND_SIZE
    }

    ghost function Region(): (r: seq<Byte>)
      reads this
      requires |ram| >= HOME + DEMAND_SIZE
      ensures |r| == DEMAND_SIZE
    {
      ram[HOME..HOME + DEMAND_SIZE]
    }

    /** After tlb_flush_all. */
    constructor (table: Table, memory: seq<Byte>)
      requires table.Clean() && Flushed(table.hw, 64) && |memory| >= HOME + DEMAND_SIZE
      ensures Valid() && tlb == table && ram == memory
    {
      tlb := table;
      ram := memory;
      victim, faults := 0, 0;
    }

    /** demand_fault: the pair of pages is mapped to its home through one of four entries. */
    method DemandFault(badvaddr: u32)
      requires Valid() && InRegion(badvaddr)
      modifies this`victim, this`faults, tlb`hw, tlb.tag, tlb.span
      ensures Valid()
      ensures forall write :: Translate(tlb.hw, badvaddr, write) == Phys(HOME + (badvaddr - DEMAND_VA))
      ensures forall write, o :: HardwareGives(tlb.hw, badvaddr, write, o) <==> o == Phys(HOME + (badvaddr - DEMAND_VA))
      ensures faults == Wrap(old(faults) + 1)
    {
      var page := badvaddr / 0x2000;
      var pair := (page * 0x2000 - DEMAND_VA) / 0x2000;
      var pa := HOME + pair * 0x2000;
      var idx := Probe(tlb.hw, page, 64);
      if idx < 0 {
        idx := IDX_FIRST + 4 + victim % 4;
        victim := Wrap(victim + 1);
      }
      tlb.MapPair(idx, page, EntryLo(pa, MAPPED_FLAGS), EntryLo(pa + 0x1000, MAPPED_FLAGS));
      SingleIsDistinct(tlb.hw);
      MappedHits(tlb.hw, idx, badvaddr);
      TranslateIsHardware(tlb.hw, badvaddr, false);
      TranslateIsHardware(tlb.hw, badvaddr, true);
      faults := Wrap(faults + 1);
    }

    /** An access to the region: a fault is served and the instruction runs again, and then it hits. */
    method Reach(va: u32, write: bool) returns (pa: nat)
      requires Valid() && InRegion(va)
      modifies this`victim, this`faults, tlb`hw, tlb.tag, tlb.span
      ensures Valid() && pa == HOME + (va - DEMAND_VA)
      ensures forall o :: HardwareGives(tlb.hw, va, write, o) <==> o == Phys(pa)
      ensures faults == old(faults) || faults == Wrap(old(faults) + 1)
    {
      HitIsHome(tlb.hw, va, write);
      var o := Translate(tlb.hw, va, write);
      if !o.Phys? {
        DemandFault(va);
        o := Translate(tlb.hw, va, write);
      }
      pa := o.pa;
      TranslateIsHardware(tlb.hw, va, write);
    }

    /** One step of a run. */
    method Step(op: Op) returns (loaded: seq<Byte>)
      requires Valid() && op.Allowed()
      modifies this`ram, this`victim, this`faults, tlb`hw, tlb.tag, tlb.span
      ensures Valid() && |ram| == |old(ram)|
      ensures loaded == if op.Load? then [old(Region())[op.va - DEMAND_VA]] else []
      ensures Region() == if op.Store? then old(Region())[op.va - DEMAND_VA := op.x] else old(Region())
      ensures ram[..HOME] == old(ram[..HOME]) && ram[HOME + DEMAND_SIZE..] == old(ram[HOME + DEMAND_SIZE..])
    {
      loaded := [];
      match op
      case Load(va) =>
        var pa := Reach(va, false);
        loaded := [ram[pa]];
      case Store(va, x) =>
        var pa := Reach(va, true);
        ram := ram[pa := x];
      case Evict(idx) =>
        tlb.Invalidate(idx);
      case MapOther(idx, page, lo0, lo1) =>
        OthersHomed(tlb.hw, idx, page, lo0, lo1);
        tlb.MapPair(idx, page, lo0, lo1);
    }

    /** Through any run of loads, stores, evictions and other mappings, the region is plain memory:
        every load sees the last store to its address, whatever was evicted and mapped again. */
    method Run(ops: seq<Op>) returns (loaded: seq<Byte>)
      requires Valid() && forall i :: 0 <= i < |ops| ==> ops[i].Allowed()
      modifies this`ram, this`victim, this`faults, tlb`hw, tlb.tag, tlb.span
      ensures Valid() && |ram| == |old(ram)|
      ensures loaded == Loads(old(Region()), ops)
      ensures Region() == MemoryAfter(old(Region()), ops)
      ensures ram[..HOME] == old(ram[..HOME]) && ram[HOME + DEMAND_SIZE..] == old(ram[HOME + DEMAND_SIZE..])
    {
      loaded := [];
      var i := 0;
      while i < |ops|
        invariant 0 <= i <= |ops| && Valid() && |ram| == |old(ram)|
        invariant loaded == Loads(old(Region()), ops[..i])
        invariant Region() == MemoryAfter(old(Region()), ops[..i])
        invariant ram[..HOME] == old(ram[..HOME]) && ram[HOME + DEMAND_SIZE..] == old(ram[HOME + DEMAND_SIZE..])
      {
        assert ops[..i + 1][..i] == ops[..i];
        var more := Step(ops[i]);
        loaded := loaded + more;
        i := i + 1;
      }
      assert ops[..|ops|] == ops;
    }
  }

  /** Mapping a pair outside the region, or invalidating one, leaves the entries of the region alone. */
  lemma OthersHomed(hw: seq<Entry>, idx: nat, page: Pair, lo0: nat, lo1: nat)
    requires |hw| == 64 && idx < 64 && AllFull(hw) && AllHomed(hw) && !InRegion(page * 0x2000)
    ensures AllHomed(Mapped(hw, idx, page, lo0, lo1))
  {
  }
}
