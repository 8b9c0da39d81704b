/** gfx_glue.c: the heap as a row of blocks. */
module HeapLayout {
  import opened Machine

  const HEAP_START: nat := 0x8160_0000
  const HEAP_END: nat := 0x82ff_0000
  const HEADER: nat := 16

  datatype Blk = Blk(size: nat, used: bool)

  type Layout = seq<Blk>

  const WHOLE: Layout := [Blk(HEAP_END - HEAP_START - HEADER, false)]

  /** The bytes the blocks and their headers cover. */
  function Span(l: Layout): nat {
    if l == [] then 0 else HEADER + l[0].size + Span(l[1..])
  }

  /** The address of block i. */
  function At(l: Layout, i: nat): nat
    requires i <= |l|
  {
    HEAP_START + Span(l[..i])
  }

  /** The blocks tile the heap, in multiples of 16 bytes, and no two free ones are neighbours. */
  ghost predicate Good(l: Layout) {
    Tiles(l) && Merged(l)
  }

  ghost predicate Tiles(l: Layout) {
    Span(l) == HEAP_END - HEAP_START && forall i :: 0 <= i < |l| ==> l[i].size % 16 == 0
  }

  ghost predicate Merged(l: Layout) {
    forall i :: 0 < i < |l| ==> l[i - 1].used || l[i].used
  }

  /** Rounding a request up to 16 bytes, in 32 bits. */
  function Rounded(n: u32): nat {
    Wrap(n + 15) / 16 * 16
  }

  /** The least multiple of 16 that is large enough, for requests whose rounding does not wrap. */
  lemma RoundedIs(n: u32)
    requires n <= 0xffff_fff0
    ensures Rounded(n) % 16 == 0 && n <= Rounded(n) < n + 16
  {
  }

  /** A payload handed out. */
  datatype Piece = Piece(p: nat, size: nat)

  /** The payloads of the used blocks of a row that starts at an address. */
  ghost function Live(l: Layout, at: nat): set<Piece> {
    if l == [] then {}
    else (if l[0].used then {Piece(at + HEADER, l[0].size)} else {}) + Live(l[1..], at + HEADER + l[0].size)
  }

  // ---- what the two calls do to the row ----

  /** The first free block of at least n bytes. */
  function FirstFit(l: Layout, n: nat): (i: nat)
    ensures i <= |l|
    ensures i < |l| ==> !l[i].used && l[i].size >= n
    ensures forall j :: 0 <= j < i ==> l[j].used || l[j].size < n
  {
    if l == [] then 0
    else if !l[0].used && l[0].size >= n then 0
    else FirstFit(l[1..], n) + 1
  }

  /** Block i used for n bytes; what is left becomes a free block if it is worth a header. */
  function Take(l: Layout, i: nat, n: nat): Layout
    requires i < |l| && l[i].size >= n
  {
    if l[i].size >= n + HEADER + 64
    then l[..i] + [Blk(n, true), Blk(l[i].size - n - HEADER, false)] + l[i + 1..]
    else l[i := Blk(l[i].size, true)]
  }

  /** Every row of free neighbours made one block. */
  function Coalesce(l: Layout): Layout
    decreases |l|
  {
    if |l| < 2 then l
    else if !l[0].used && !l[1].used then Coalesce([Blk(l[0].size + HEADER + l[1].size, false)] + l[2..])
    else [l[0]] + Coalesce(l[1..])
  }

  function Release(l: Layout, i: nat): Layout
    requires i < |l|
  {
    Coalesce(l[i := Blk(l[i].size, false)])
  }

  // ---- sums and sets over parts of a row ----

  lemma {:induction false} SpanSplit(a: Layout, b: Layout)
    ensures Span(a + b) == Span(a) + Span(b)
  {
    if a == [] {
      assert a + b == b;
    } else {
      assert (a + b)[1..] == a[1..] + b;
      SpanSplit(a[1..], b);
    }
  }

  lemma {:induction false} LiveSplit(a: Layout, b: Layout, at: nat)
    ensures Live(a + b, at) == Live(a, at) + Live(b, at + Span(a))
  {
    if a == [] {
      assert a + b == b;
    } else {
      assert (a + b)[1..] == a[1..] + b;
      LiveSplit(a[1..], b, at + HEADER + a[0].size);
    }
  }

  /** A payload lies behind a header and inside the row. */
  lemma {:induction false} LiveWithin(l: Layout, at: nat, x: Piece)
    requires x in Live(l, at)
    ensures at + HEADER <= x.p && x.p + x.size <= at + Span(l)
  {
    var rest := at + HEADER + l[0].size;
    if x in Live(l[1..], rest) {
      LiveWithin(l[1..], rest, x);
    }
  }

  /** Payloads do not meet, not even each other's headers. */
  lemma {:induction false} LiveApart(l: Layout, at: nat, x: Piece, y: Piece)
    requires x in Live(l, at) && y in Live(l, at) && x != y
    ensures x.p + x.size + HEADER <= y.p || y.p + y.size + HEADER <= x.p
  {
    var rest := at + HEADER + l[0].size;
    if x in Live(l[1..], rest) && y in Live(l[1..], rest) {
      LiveApart(l[1..], rest, x, y);
    } else if x in Live(l[1..], rest) {
      LiveWithin(l[1..], rest, x);
    } else {
      LiveWithin(l[1..], rest, y);
    }
  }

  lemma {:induction false} LiveAligned(l: Layout, at: nat, x: Piece)
    requires x in Live(l, at) && at % 16 == 0 && forall i :: 0 <= i < |l| ==> l[i].size % 16 == 0
    ensures x.p % 16 == 0
  {
    var rest := at + HEADER + l[0].size;
    if x in Live(l[1..], rest) {
      LiveAligned(l[1..], rest, x);
    }
  }

  /** A live payload is that of one used block. */
  lemma {:induction false} LiveIndex(l: Layout, at: nat, x: Piece) returns (i: nat)
    requires x in Live(l, at)
    ensures i < |l| && l[i] == Blk(x.size, true) && x.p == at + Span(l[..i]) + HEADER
  {
    var rest := at + HEADER + l[0].size;
    if x in Live(l[1..], rest) {
      var j := LiveIndex(l[1..], rest, x);
      i := j + 1;
      assert l[..i][1..] == l[1..][..j];
    } else {
      i := 0;
    }
  }

  lemma {:induction false} UsedIsLive(l: Layout, at: nat, i: nat)
    requires i < |l| && l[i].used
    ensures Piece(at + Span(l[..i]) + HEADER, l[i].size) in Live(l, at)
  {
    if i > 0 {
      UsedIsLive(l[1..], at + HEADER + l[0].size, i - 1);
      assert l[..i][1..] == l[1..][..i - 1];
    }
  }

  lemma NoneLive(l: Layout, at: nat)
    requires Live(l, at) == {}
    ensures forall i :: 0 <= i < |l| ==> !l[i].used
  {
    forall i | 0 <= i < |l| ensures !l[i].used {
      if l[i].used {
        UsedIsLive(l, at, i);
      }
    }
  }

  /** A row in three parts. */
  lemma Three(a: Layout, m: Layout, b: Layout, at: nat)
    ensures Span(a + m + b) == Span(a) + Span(m) + Span(b)
    ensures Live(a + m + b, at) == Live(a, at) + Live(m, at + Span(a)) + Live(b, at + Span(a) + Span(m))
  {
    SpanSplit(a + m, b);
    SpanSplit(a, m);
    LiveSplit(a + m, b, at);
    LiveSplit(a, m, at);
  }

  // ---- malloc ----

  /** What Take puts in the place of block i. */
  function Split(b: Blk, n: nat): Layout
    requires b.size >= n
  {
    if b.size >= n + HEADER + 64 then [Blk(n, true), Blk(b.size - n - HEADER, false)] else [Blk(b.size, true)]
  }

  lemma TakeParts(l: Layout, i: nat, n: nat)
    requires i < |l| && l[i].size >= n
    ensures l == l[..i] + [l[i]] + l[i + 1..]
    ensures Take(l, i, n) == l[..i] + Split(l[i], n) + l[i + 1..]
  {
  }

  lemma SplitParts(b: Blk, n: nat, at: nat)
    requires b.size >= n
    ensures Span(Split(b, n)) == HEADER + b.size == Span([b])
    ensures Live(Split(b, n), at) == {Piece(at + HEADER, Split(b, n)[0].size)}
    ensures !b.used ==> Live([b], at) == {}
  {
    var s := Split(b, n);
    assert Span([b][1..]) == 0 && Live([b][1..], at + HEADER + b.size) == {};
    if |s| == 2 {
      assert s[1..] == [s[1]] && [s[1]][1..] == [];
      assert Span(s[1..]) == HEADER + s[1].size;
      assert Live(s[1..], at + HEADER + n) == {};
    } else {
      assert s[1..] == [];
    }
  }

  lemma TakeGood(l: Layout, i: nat, n: nat)
    requires Good(l) && i < |l| && !l[i].used && l[i].size >= n && n % 16 == 0
    ensures Good(Take(l, i, n))
  {
    TakeSpan(l, i, n);
    TakeMerged(l, i, n);
    var t := Take(l, i, n);
    assert forall j :: 0 <= j < |t| ==> t[j].size % 16 == 0;
  }

  lemma TakeSpan(l: Layout, i: nat, n: nat)
    requires i < |l| && l[i].size >= n
    ensures Span(Take(l, i, n)) == Span(l)
  {
    TakeParts(l, i, n);
    SplitParts(l[i], n, 0);
    hide Span, Take, Split, Live;
    Three(l[..i], [l[i]], l[i + 1..], 0);
    Three(l[..i], Split(l[i], n), l[i + 1..], 0);
  }

  lemma TakeMerged(l: Layout, i: nat, n: nat)
    requires Merged(l) && i < |l| && !l[i].used && l[i].size >= n
    ensures Merged(Take(l, i, n))
  {
    var t := Take(l, i, n);
    var k := |t| - |l|;
    forall j | 0 < j < |t| ensures t[j - 1].used || t[j].used {
      if j < i {
        Neighbours(l, j);
      } else if j > i + 1 + k {
        Neighbours(l, j - k);
      } else if j == i + 1 + k && k == 1 {
        Neighbours(l, i + 1);
      }
    }
  }

  lemma Neighbours(l: Layout, i: nat)
    requires Merged(l) && 0 < i < |l|
    ensures l[i - 1].used || l[i].used
  {
  }

  lemma FirstAt(l: Layout)
    ensures At(l, 0) == HEAP_START
  {
    assert l[..0] == [];
  }

  /** One part of a row exchanged for one as long that holds one payload more. */
  lemma OneMoreLive(a: Layout, m: Layout, now: Layout, b: Layout, at: nat, x: Piece)
    requires Span(now) == Span(m) && Live(m, at + Span(a)) == {} && Live(now, at + Span(a)) == {x}
    ensures Live(a + now + b, at) == Live(a + m + b, at) + {x}
  {
    hide Live, Span;
    Three(a, m, b, at);
    Three(a, now, b, at);
  }

  /** The new payload is added to the live ones, at the place of the free block. */
  lemma TakeLive(l: Layout, i: nat, n: nat)
    requires i < |l| && !l[i].used && l[i].size >= n
    ensures var x := Piece(At(l, i) + HEADER, Take(l, i, n)[i].size);
            Live(Take(l, i, n), HEAP_START) == Live(l, HEAP_START) + {x} && x !in Live(l, HEAP_START)
  {
    TakeParts(l, i, n);
    assert Take(l, i, n)[i] == Split(l[i], n)[0];
    SplitParts(l[i], n, At(l, i));
    hide Live, Span, Take, Split;
    OneMoreLive(l[..i], [l[i]], Split(l[i], n), l[i + 1..], HEAP_START,
                Piece(At(l, i) + HEADER, Split(l[i], n)[0].size));
    NotYetLive(l, i, Split(l[i], n)[0].size);
  }

  lemma NotYetLive(l: Layout, i: nat, size: nat)
    requires i < |l| && !l[i].used
    ensures Piece(At(l, i) + HEADER, size) !in Live(l, HEAP_START)
  {
    if Piece(At(l, i) + HEADER, size) in Live(l, HEAP_START) {
      var j := LiveIndex(l, HEAP_START, Piece(At(l, i) + HEADER, size));
      AtOnce(l, i, j);
    }
  }

  /** Blocks have different addresses. */
  lemma AtOnce(l: Layout, i: nat, j: nat)
    requires i <= |l| && j <= |l| && At(l, i) == At(l, j)
    ensures i == j
  {
    if i < j {
      AtUp(l, i, j);
    } else if j < i {
      AtUp(l, j, i);
    }
  }

  lemma AtUp(l: Layout, i: nat, j: nat)
    requires i < j <= |l|
    ensures At(l, i) + HEADER + l[i].size <= At(l, j)
  {
    assert l[..j] == l[..i] + l[i..j];
    SpanSplit(l[..i], l[i..j]);
  }

  // ---- free ----

  lemma {:induction false} CoalesceKeeps(l: Layout, at: nat)
    ensures Span(Coalesce(l)) == Span(l) && Live(Coalesce(l), at) == Live(l, at)
    decreases |l|
  {
    if |l| >= 2 {
      if !l[0].used && !l[1].used {
        var one := [Blk(l[0].size + HEADER + l[1].size, false)] + l[2..];
        assert l[1..][1..] == l[2..] == one[1..];
        CoalesceKeeps(one, at);
      } else {
        CoalesceKeeps(l[1..], at + HEADER + l[0].size);
        assert Coalesce(l)[1..] == Coalesce(l[1..]);
      }
    }
  }

  lemma {:induction false} CoalesceGood(l: Layout)
    requires forall i :: 0 <= i < |l| ==> l[i].size % 16 == 0
    ensures Merged(Coalesce(l)) && (l != [] ==> Coalesce(l) != [] && (l[0].used ==> Coalesce(l)[0].used))
    ensures forall i :: 0 <= i < |Coalesce(l)| ==> Coalesce(l)[i].size % 16 == 0
    decreases |l|
  {
    if |l| >= 2 {
      if !l[0].used && !l[1].used {
        CoalesceGood([Blk(l[0].size + HEADER + l[1].size, false)] + l[2..]);
      } else {
        CoalesceGood(l[1..]);
      }
    }
  }

  /** Freeing block i takes its payload, and nothing else, from the live ones. */
  lemma ReleaseKeeps(l: Layout, i: nat)
    requires Good(l) && i < |l| && l[i].used
    ensures var x := Piece(At(l, i) + HEADER, l[i].size);
            && Good(Release(l, i)) && Release(l, i) != []
            && x in Live(l, HEAP_START) && Live(Release(l, i), HEAP_START) == Live(l, HEAP_START) - {x}
  {
    FreedRow(l, i);
    CoalesceKeeps(l[i := Blk(l[i].size, false)], HEAP_START);
    CoalesceGood(l[i := Blk(l[i].size, false)]);
    hide Live, Span, Coalesce;
  }

  lemma FreedRow(l: Layout, i: nat)
    requires i < |l| && l[i].used
    ensures var x := Piece(At(l, i) + HEADER, l[i].size);
            var f := l[i := Blk(l[i].size, false)];
            && Span(f) == Span(l)
            && Live(l, HEAP_START) == Live(f, HEAP_START) + {x} && x !in Live(f, HEAP_START)
  {
    var f := l[i := Blk(l[i].size, false)];
    assert l == l[..i] + [l[i]] + l[i + 1..] && f == l[..i] + [f[i]] + l[i + 1..];
    Three(l[..i], [l[i]], l[i + 1..], HEAP_START);
    Three(l[..i], [f[i]], l[i + 1..], HEAP_START);
    OneBlock(l[i], At(l, i));
    OneBlock(f[i], At(l, i));
    assert f[..i] == l[..i];
    NotYetLive(f, i, l[i].size);
    hide Live, Span;
  }

  lemma OneBlock(b: Blk, at: nat)
    ensures Span([b]) == HEADER + b.size
    ensures Live([b], at) == if b.used then {Piece(at + HEADER, b.size)} else {}
  {
    assert Span([b][1..]) == 0 && Live([b][1..], at + HEADER + b.size) == {};
  }

  /** In a good row every live payload is 16-byte aligned and inside the heap, and no two meet. */
  lemma PayloadsSafe(l: Layout, x: Piece, y: Piece)
    requires Good(l) && x in Live(l, HEAP_START) && y in Live(l, HEAP_START)
    ensures x.p % 16 == 0 && HEAP_START + HEADER <= x.p && x.p + x.size <= HEAP_END
    ensures x == y || x.p + x.size + HEADER <= y.p || y.p + y.size + HEADER <= x.p
  {
    LiveAligned(l, HEAP_START, x);
    LiveWithin(l, HEAP_START, x);
    if x != y {
      LiveApart(l, HEAP_START, x, y);
    }
  }

  lemma FirstTwo(l: Layout)
    requires Merged(l)
    ensures |l| >= 2 ==> l[0].used || l[1].used
  {
    if |l| >= 2 {
      Neighbours(l, 1);
    }
  }

  /** With nothing live, the heap is the one free block it started as. */
  lemma AllFreed(l: Layout)
    requires Good(l) && Live(l, HEAP_START) == {}
    ensures l == WHOLE
  {
    NoneLive(l, HEAP_START);
    FirstTwo(l);
    if |l| == 1 {
      assert l == [l[0]];
      OneBlock(l[0], 0);
    }
  }

  lemma WholeGood()
    ensures Good(WHOLE) && Live(WHOLE, HEAP_START) == {}
  {
    assert WHOLE[1..] == [];
  }
}

/** The heap in memory: headers linked by address. */
module Heap {
  import opened Machine
  import opened HeapLayout

  datatype Header = Header(size: nat, used: bool, next: nat)

  /** The headers in memory are those of the row, each linked to the next. */
  ghost predicate Holds(mem: map<nat, Header>, l: Layout) {
    forall i :: 0 <= i < |l| ==> HeaderIs(mem, l, i)
  }

  ghost predicate HeaderIs(mem: map<nat, Header>, l: Layout, i: nat)
    requires i < |l|
  {
    At(l, i) in mem && mem[At(l, i)] == Header(l[i].size, l[i].used, if i + 1 < |l| then At(l, i + 1) else 0)
  }

  lemma FirstFitIs(l: Layout, n: nat)
    ensures FirstFit(l, n) == |l| <==> forall i :: 0 <= i < |l| ==> l[i].used || l[i].size < n
    ensures FirstFit(l, n) < |l| ==> !l[FirstFit(l, n)].used && l[FirstFit(l, n)].size >= n
  {
  }

  /** What a request gets: at least what it rounds to, and less than 80 bytes more; a block is cut only if what is
      left has 64 bytes. */
  lemma TakenSize(l: Layout, i: nat, request: u32)
    requires Good(l) && i < |l| && l[i].size >= Rounded(request)
    ensures var s := Take(l, i, Rounded(request))[i].size;
            && Rounded(request) <= s < Rounded(request) + 80
            && (s >= request <==> request <= 0xffff_fff0)
            && s <= l[i].size && (s < l[i].size ==> s == Rounded(request) && l[i].size >= s + HEADER + 64)
  {
    SizeInHeap(l, i);
  }

  lemma {:induction false} SizeInHeap(l: Layout, i: nat)
    requires i < |l|
    ensures l[i].size <= Span(l)
  {
    if i > 0 {
      SizeInHeap(l[1..], i - 1);
    }
  }

  class Allocator {
    /** heap_head; 0 before the first call. */
    var head: nat
    var mem: map<nat, Header>
    ghost var layout: Layout

    ghost predicate Valid()
      reads this
    {
      Good(layout) && layout != [] && if head == 0 then layout == WHOLE else head == HEAP_START && Holds(mem, layout)
    }

    /** The payloads the client holds. */
    ghost function Pieces(): set<Piece>
      reads this
    {
      Live(layout, HEAP_START)
    }

    constructor ()
      ensures Valid() && Pieces() == {}
    {
      head := 0;
      mem := map[];
      layout := WHOLE;
      new;
      WholeGood();
    }

    /** heap_init */
    method Init()
      requires Valid() && head == 0
      modifies this`head, this`mem
      ensures Valid() && head != 0
    {
      head := HEAP_START;
      mem := mem[HEAP_START := Header(HEAP_END - HEAP_START - HEADER, false, 0)];
      assert WHOLE[..0] == [];
    }

    /** gfx_nc5874_malloc: the first free block that is large enough is taken. Null exactly when no
        free block can hold the rounded size; otherwise a new 16-byte aligned payload of at least that
        size. The request itself fits unless rounding it wraps. */
    method Malloc(request: u32) returns (p: nat)
      requires Valid()
      modifies this
      ensures Valid() && head != 0
      ensures var l, n := old(layout), Rounded(request);
              var i := FirstFit(l, n);
              if i < |l| then layout == Take(l, i, n) && p == At(l, i) + HEADER else layout == l && p == 0
      ensures p == 0 <==> forall i :: 0 <= i < |old(layout)| ==>
                            old(layout)[i].used || old(layout)[i].size < Rounded(request)
      ensures p == 0 ==> Pieces() == old(Pieces())
      ensures p != 0 ==> exists x: Piece :: x.p == p && x !in old(Pieces()) && Pieces() == old(Pieces()) + {x}
                                     && Rounded(request) <= x.size < Rounded(request) + 80
                                     && (x.size >= request <==> request <= 0xffff_fff0)
                                     && var s := old(layout)[FirstFit(old(layout), Rounded(request))].size;
                                        x.size <= s && (x.size < s ==> s >= x.size + HEADER + 64)
    {
      hide Live, Span, Take, FirstFit;
      if head == 0 {
        Init();
      }
      var n := Wrap(request + 15) / 16 * 16;
      ghost var l := layout;
      var b, i := Find(n);
      FirstFitIs(l, n);
      if b == 0 {
        return 0;
      }
      Use(b, n, i);
      p := b + HEADER;
      TakeLive(l, i, n);
      TakenSize(l, i, request);
    }

    /** The loop of malloc. */
    method Find(n: nat) returns (b: nat, ghost i: nat)
      requires Valid() && head != 0
      ensures i == FirstFit(layout, n)
      ensures b == if FirstFit(layout, n) < |layout| then At(layout, FirstFit(layout, n)) else 0
    {
      hide Live, Span;
      b, i := head, 0;
      FirstAt(layout);
      while b != 0
        invariant 0 <= i <= |layout| && b == if i < |layout| then At(layout, i) else 0
        invariant forall j :: 0 <= j < i ==> layout[j].used || layout[j].size < n
        decreases |layout| - i
      {
        assert HeaderIs(mem, layout, i);
        if !mem[b].used && mem[b].size >= n {
          return;
        }
        b := mem[b].next;
        i := i + 1;
      }
    }

    /** The block is split if it is worth it, and marked used. */
    method Use(b: nat, n: nat, ghost i: nat)
      requires Valid() && head != 0 && i < |layout| && b == At(layout, i)
      requires !layout[i].used && layout[i].size >= n && n % 16 == 0
      modifies this`mem, this`layout
      ensures Valid() && head != 0 && layout == Take(old(layout), i, n)
    {
      ghost var l := layout;
      assert HeaderIs(mem, l, i);
      if mem[b].size >= n + HEADER + 64 {
        var rest := b + HEADER + n;
        mem := mem[rest := Header(mem[b].size - n - HEADER, false, mem[b].next)];
        mem := mem[b := Header(n, mem[b].used, rest)];
      }
      mem := mem[b := Header(mem[b].size, true, mem[b].next)];
      layout := Take(l, i, n);
      TakeGood(l, i, n);
      assert mem == if l[i].size >= n + HEADER + 64
                    then old(mem)[b + HEADER + n := Header(l[i].size - n - HEADER, false, old(mem)[b].next)]
                                 [b := Header(n, true, b + HEADER + n)]
                    else old(mem)[b := Header(l[i].size, true, old(mem)[b].next)];
      TakeHolds(old(mem), mem, l, i, n);
    }

    /** gfx_nc5874_free of null or of a payload the client holds: that payload goes, everything else
        stays where it is. */
    method Free(p: nat)
      requires Valid() && (p != 0 ==> exists x :: x in Pieces() && x.p == p)
      modifies this`mem, this`layout
      ensures Valid()
      ensures p == 0 ==> Pieces() == old(Pieces())
      ensures forall x :: x in old(Pieces()) && x.p == p ==> Pieces() == old(Pieces()) - {x}
    {
      if p == 0 {
        forall x | x in Pieces() ensures x.p != p {
          LiveWithin(layout, HEAP_START, x);
        }
        return;
      }
      ghost var x: Piece :| x in Pieces() && x.p == p;
      ghost var l := layout;
      ghost var i := LiveIndex(l, HEAP_START, x);
      if head == 0 {
        WholeGood();
      }
      ReleaseKeeps(l, i);
      forall y | y in Pieces() && y.p == p ensures y == x {
        if y != x {
          LiveApart(l, HEAP_START, x, y);
        }
      }
      assert HeaderIs(mem, l, i);
      mem := mem[p - HEADER := mem[p - HEADER].(used := false)];
      ghost var f := l[i := Blk(l[i].size, false)];
      FreedHolds(old(mem), mem, l, i);
      Sweep(f);
    }

    /** The loop of free, over a row that is whole but may have free neighbours. */
    method Sweep(ghost f: Layout)
      requires f != [] && head == HEAP_START && Holds(mem, f) && Good(Coalesce(f))
      modifies this`mem, this`layout
      ensures Valid() && layout == Coalesce(f)
    {
      ghost var l, i := f, 0;
      var b := head;
      assert f[..0] == [] && f[0..] == f && [] + Coalesce(f) == Coalesce(f);
      while b != 0
        invariant Holds(mem, l) && 0 <= i <= |l| && l != []
        invariant b == if i < |l| then At(l, i) else 0
        invariant l[..i] + Coalesce(l[i..]) == Coalesce(f)
        decreases |l| - i
      {
        assert HeaderIs(mem, l, i);
        if i + 1 < |l| {
          assert HeaderIs(mem, l, i + 1);
        }
        while !mem[b].used && mem[b].next != 0 && !mem[mem[b].next].used
          invariant Holds(mem, l) && 0 <= i < |l| && b == At(l, i) && HeaderIs(mem, l, i)
          invariant i + 1 < |l| ==> HeaderIs(mem, l, i + 1)
          invariant l[..i] + Coalesce(l[i..]) == Coalesce(f)
          decreases |l|
        {
          l := MergeTwo(b, l, i);
          if i + 1 < |l| {
            assert HeaderIs(mem, l, i + 1);
          }
        }
        CoalesceStep(l, i);
        b := mem[b].next;
        i := i + 1;
      }
      assert l[..i] == l && l[i..] == [] && Coalesce(l[i..]) == [];
      assert l + [] == l;
      layout := l;
    }

    /** One free block takes in the next. */
    method MergeTwo(b: nat, ghost l: Layout, ghost i: nat) returns (ghost m: Layout)
      requires Holds(mem, l) && i + 1 < |l| && b == At(l, i) && b in mem && mem[b].next in mem
      requires mem[b] == Header(l[i].size, false, At(l, i + 1)) && !l[i].used && !l[i + 1].used
      modifies this`mem
      ensures |m| == |l| - 1 && i < |m| && m[..i] == l[..i] && Coalesce(m[i..]) == Coalesce(l[i..])
      ensures Holds(mem, m) && b == At(m, i) && HeaderIs(mem, m, i)
    {
      assert HeaderIs(mem, l, i + 1);
      var n := mem[b].next;
      mem := mem[b := mem[b].(size := mem[b].size + HEADER + mem[n].size)];
      mem := mem[b := mem[b].(next := mem[n].next)];
      m := Joined(l, i);
      AtUp(l, i, i + 1);
      assert mem == old(mem)[b := Header(l[i].size + HEADER + l[i + 1].size, false, old(mem)[n].next)];
      JoinedHolds(old(mem), mem, l, i);
      JoinedCoalesces(l, i);
    }
  }

  /** What a client asks for; it only gives back what it holds. */
  datatype Op = Get(n: u32) | GiveBack(p: nat)

  /** After any run of calls the heap is good, and once everything is given back it is whole again. */
  method Run(h: Allocator, ops: seq<Op>) returns (held: set<nat>)
    requires h.Valid() && h.Pieces() == {}
    modifies h
    ensures h.Valid()
    ensures forall p :: p in held <==> exists x :: x in h.Pieces() && x.p == p
    ensures held == {} ==> h.layout == WHOLE
  {
    held := {};
    var k := 0;
    while k < |ops|
      invariant 0 <= k <= |ops| && h.Valid() && Holder(h.Pieces(), held)
    {
      match ops[k] {
        case Get(n) =>
          var p := h.Malloc(n);
          if p != 0 {
            held := held + {p};
          }
        case GiveBack(p) =>
          if p in held {
            ghost var x: Piece :| x in h.Pieces() && x.p == p;
            ghost var l := h.layout;
            h.Free(p);
            OnlyOne(l, x);
            held := held - {p};
          }
      }
      k := k + 1;
    }
    if held == {} {
      assert forall x :: x in h.Pieces() ==> x.p in held;
      assert h.Pieces() == {};
      AllFreed(h.layout);
    }
  }

  /** The addresses held are those of the live payloads. */
  ghost predicate Holder(pieces: set<Piece>, held: set<nat>) {
    (forall x :: x in pieces ==> x.p in held) && forall p :: p in held ==> exists x :: x in pieces && x.p == p
  }

  lemma OnlyOne(l: Layout, x: Piece)
    requires x in Live(l, HEAP_START)
    ensures forall y :: y in Live(l, HEAP_START) && y.p == x.p ==> y == x
  {
    forall y | y in Live(l, HEAP_START) && y.p == x.p ensures y == x {
      if y != x {
        LiveApart(l, HEAP_START, x, y);
      }
    }
  }

  /** Blocks i and i + 1 as one free block. */
  ghost function Joined(l: Layout, i: nat): Layout
    requires i + 1 < |l|
  {
    l[..i] + [Blk(l[i].size + HEADER + l[i + 1].size, false)] + l[i + 2..]
  }

  lemma JoinedCoalesces(l: Layout, i: nat)
    requires i + 1 < |l| && !l[i].used && !l[i + 1].used
    ensures Coalesce(Joined(l, i)[i..]) == Coalesce(l[i..])
  {
    assert Joined(l, i)[i..] == [Blk(l[i].size + HEADER + l[i + 1].size, false)] + l[i + 2..];
    assert l[i..][2..] == l[i + 2..];
  }

  lemma JoinedAt(l: Layout, i: nat, j: nat)
    requires i + 1 < |l| && j <= |l| - 1
    ensures At(Joined(l, i), j) == if j <= i then At(l, j) else At(l, j + 1)
  {
    var m := Joined(l, i);
    if j <= i {
      assert m[..j] == l[..j];
    } else {
      var between := l[i + 2..j + 1];
      assert m[..j] == l[..i] + [m[i]] + between;
      assert l[..j + 1] == l[..i] + [l[i], l[i + 1]] + between;
      Three(l[..i], [m[i]], between, 0);
      Three(l[..i], [l[i], l[i + 1]], between, 0);
      OneBlock(m[i], 0);
      OneBlock(l[i + 1], 0);
      assert [l[i], l[i + 1]][1..] == [l[i + 1]];
    }
  }

  lemma JoinedHolds(mem: map<nat, Header>, now: map<nat, Header>, l: Layout, i: nat)
    requires Holds(mem, l) && i + 1 < |l| && HeaderIs(mem, l, i) && HeaderIs(mem, l, i + 1)
    requires now == mem[At(l, i) := Header(l[i].size + HEADER + l[i + 1].size, false, mem[At(l, i + 1)].next)]
    ensures Holds(now, Joined(l, i)) && HeaderIs(now, Joined(l, i), i)
    ensures At(Joined(l, i), i) == At(l, i)
  {
    var m := Joined(l, i);
    forall j | 0 <= j < |m| ensures HeaderIs(now, m, j) {
      JoinedAt(l, i, j);
      JoinedAt(l, i, j + 1);
      if j < i {
        AtUp(l, j, i);
        assert HeaderIs(mem, l, j);
      } else if j > i {
        AtUp(l, i, j + 1);
        assert HeaderIs(mem, l, j + 1);
      }
    }
    JoinedAt(l, i, i);
  }

  lemma CoalesceStep(l: Layout, i: nat)
    requires i < |l| && (i + 1 < |l| ==> l[i].used || l[i + 1].used)
    ensures l[..i] + Coalesce(l[i..]) == l[..i + 1] + Coalesce(l[i + 1..])
  {
    assert l[i..][1..] == l[i + 1..];
    assert l[..i + 1] == l[..i] + [l[i]];
  }

  lemma {:induction false} SameSpan(a: Layout, b: Layout)
    requires |a| == |b| && forall i :: 0 <= i < |a| ==> a[i].size == b[i].size
    ensures Span(a) == Span(b)
  {
    if a != [] {
      SameSpan(a[1..], b[1..]);
    }
  }

  /** Clearing the used flag of block i. */
  lemma FreedHolds(mem: map<nat, Header>, now: map<nat, Header>, l: Layout, i: nat)
    requires Holds(mem, l) && i < |l| && HeaderIs(mem, l, i)
    requires now == mem[At(l, i) := mem[At(l, i)].(used := false)]
    ensures Holds(now, l[i := Blk(l[i].size, false)])
  {
    var f := l[i := Blk(l[i].size, false)];
    forall j | 0 <= j < |f| ensures HeaderIs(now, f, j) {
      SameSpan(f[..j], l[..j]);
      SameSpan(f[..j + 1], l[..j + 1]);
      assert HeaderIs(mem, l, j);
      if At(l, j) == At(l, i) {
        AtOnce(l, i, j);
      }
    }
  }

  /** The addresses after Take: those before, with one more for the rest of a block that was split. */
  lemma TakeAt(l: Layout, i: nat, n: nat, j: nat)
    requires i < |l| && l[i].size >= n && j < |Take(l, i, n)|
    ensures var k := |Take(l, i, n)| - |l|;
            At(Take(l, i, n), j) ==
            if j <= i then At(l, j) else if k == 1 && j == i + 1 then At(l, i) + HEADER + n else At(l, j - k)
  {
    var t := Take(l, i, n);
    var s := Split(l[i], n);
    TakeParts(l, i, n);
    if j <= i {
      assert t[..j] == l[..j];
    } else if |s| == 2 && j == i + 1 {
      assert t[..j] == l[..i] + [s[0]];
      SpanSplit(l[..i], [s[0]]);
      assert [s[0]][1..] == [];
    } else {
      var k := |s| - 1;
      var between := l[i + 1..j - k];
      assert t[..j] == l[..i] + s + between;
      assert l[..j - k] == l[..i] + [l[i]] + between;
      Three(l[..i], s, between, 0);
      Three(l[..i], [l[i]], between, 0);
      SplitParts(l[i], n, 0);
    }
  }

  /** The writes of malloc turn the headers of the row into those of the row after Take. */
  lemma TakeHolds(mem: map<nat, Header>, now: map<nat, Header>, l: Layout, i: nat, n: nat)
    requires Holds(mem, l) && i < |l| && HeaderIs(mem, l, i) && l[i].size >= n
    requires var b := At(l, i);
             now == if l[i].size >= n + HEADER + 64
                    then mem[b + HEADER + n := Header(l[i].size - n - HEADER, false, mem[b].next)]
                            [b := Header(n, true, b + HEADER + n)]
                    else mem[b := Header(l[i].size, true, mem[b].next)]
    ensures Holds(now, Take(l, i, n))
  {
    var t := Take(l, i, n);
    var k := |t| - |l|;
    forall j | 0 <= j < |t| ensures HeaderIs(now, t, j) {
      TakeAt(l, i, n, j);
      if j + 1 < |t| {
        TakeAt(l, i, n, j + 1);
      }
      assert HeaderIs(mem, l, i);
      if j < i {
        AtUp(l, j, i);
        assert HeaderIs(mem, l, j);
      } else if j > i + k {
        AtUp(l, i, j - k);
        assert HeaderIs(mem, l, j - k);
      }
    }
  }
}
