// The per-peer message queue of PeerTalk (src/core/queue.c, queue.h).
//
// A power-of-two ring of fixed slots with two views laid over it:
//  * the FIFO view — `read_idx` .. `read_idx + count` — used by push, pop,
//    peek and consume;
//  * four priority lists threaded through the slots' `next_slot` fields,
//    used by the priority pops and kept in step by every push, plus a
//    32-bucket hash from coalesce keys to slots.
// The two views do not compose: priority pops never move `read_idx`, and
// every push writes at `write_idx`.  The class methods state each new state
// as a function of the old one; the lemmas then give those functions their
// meaning: the FIFO view under `Aligned` (write == read + count) as the
// sequence `Queued`, the priority view under `ExtShape` as four lists of
// slot indices threaded through the `next` links.
//
// `(idx + 1) & capacity_mask` is written `Advance(idx, capacity)`, i.e.
// `(idx + 1) % capacity`, which is what the mask computes for the
// power-of-two capacities `Init` admits.
module Queue {
  import opened PtTypes
  import opened PtErrors

  const SLOT_SIZE: int := 256
  const MAX_SLOTS: int := 32
  const SLOT_NONE: int := 0xFFFF
  const HASH_SIZE: int := 32
  const PRIO_COUNT: int := 4
  const PRIO_HIGH: int := 2
  const PRIO_CRITICAL: int := 3

  const SLOT_USED: bv8 := 1
  const SLOT_COALESCABLE: bv8 := 2
  const SLOT_READY: bv8 := 4

  const COALESCE_NONE: bv16 := 0

  const PRESSURE_MEDIUM: int := 50
  const PRESSURE_HIGH: int := 75
  const PRESSURE_CRITICAL: int := 90

  /** One queue slot; `data` is the stored message (its length is `|data|`). */
  datatype Slot = Slot(data: bytes, priority: int, flags: bv8, key: bv16, next: int, timestamp: int)

  /** A slot as `pt_alloc_clear` leaves it: all zero. */
  const ZeroSlot: Slot := Slot([], 0, 0, 0, 0, 0)

  datatype Backpressure = NoPressure | Light | Heavy | Blocking

  predicate Used(s: Slot) { s.flags & SLOT_USED != 0 }

  predicate Coalescable(s: Slot) { s.flags & SLOT_COALESCABLE != 0 }

  /** A slot `pt_queue_pop` will hand out: USED, and also READY on Open Transport builds. */
  predicate Live(s: Slot, openTransport: bool)
  {
    Used(s) && (openTransport ==> s.flags & SLOT_READY != 0)
  }

  /** `pt_is_power_of_two`: nonzero and `v & (v - 1) == 0` in 16 bits. */
  predicate IsPowerOfTwo(v: int)
    requires 0 <= v < 0x1_0000
  {
    v > 0 && (v as bv16) & ((v - 1) as bv16) == 0
  }

  /** The bit test accepts exactly the sixteen powers of two a `uint16_t` holds. */
  lemma PowerOfTwoValues(v: bv16)
    ensures v != 0 && v & (v - 1) == 0 <==>
      || v == 1 || v == 2 || v == 4 || v == 8 || v == 16 || v == 32 || v == 64 || v == 128
      || v == 256 || v == 512 || v == 1024 || v == 2048 || v == 4096 || v == 8192
      || v == 16384 || v == 32768
  {
  }

  /** A capacity the bit test accepts is never `PT_SLOT_NONE`, so every slot index differs from it. */
  lemma PowerOfTwoNotNone(v: int)
    requires 0 <= v < 0x1_0000 && IsPowerOfTwo(v)
    ensures v < SLOT_NONE
  {
    assert (0xFFFF as bv16) & (0xFFFE as bv16) == 0xFFFE;
  }

  /** `PT_COALESCE_HASH`: fold the high byte into the low one, keep five bits. */
  function Bucket(key: bv16): (b: int)
    ensures 0 <= b < HASH_SIZE
  {
    ((key ^ (key >> 8)) & 31) as int
  }

  // ---------------------------------------------------------------------
  // Ring positions and the FIFO window
  // ---------------------------------------------------------------------

  /** The index after `i` in a ring of `cap` slots. */
  function Advance(i: int, cap: int): (r: int)
    requires 0 <= i < cap
    ensures 0 <= r < cap
  {
    if i + 1 < cap then i + 1 else 0
  }

  /** The `k`-th slot after `start` in a ring of `cap` slots. */
  function Pos(start: int, k: int, cap: int): (r: int)
    requires 0 <= start < cap && 0 <= k <= cap
    ensures 0 <= r < cap
  {
    if start + k < cap then start + k else start + k - cap
  }

  /** Stepping round the ring is `(i + 1) % cap`, which `& capacity_mask` computes for a power-of-two capacity. */
  lemma AdvanceIsModulo(i: int, cap: int)
    requires 0 <= i < cap
    ensures Advance(i, cap) == (i + 1) % cap
  {
  }

  /** The `k`-th slot after `start` is `(start + k) % cap`. */
  lemma PosIsModulo(start: int, k: int, cap: int)
    requires 0 <= start < cap && 0 <= k <= cap
    ensures Pos(start, k, cap) == (start + k) % cap
  {
  }

  lemma PosNext(start: int, k: int, cap: int)
    requires 0 <= start < cap && 0 <= k < cap
    ensures Advance(Pos(start, k, cap), cap) == Pos(start, k + 1, cap)
  {
  }

  lemma PosStep(start: int, k: int, cap: int)
    requires 0 <= start < cap && 0 <= k < cap
    ensures Pos(Advance(start, cap), k, cap) == Pos(start, k + 1, cap)
  {
  }

  /** The messages of the `n` slots from `start` on, in ring order. */
  ghost function Window(s: seq<Slot>, start: int, n: int): (w: seq<bytes>)
    requires 0 <= start < |s| && 0 <= n <= |s|
    ensures |w| == n
    decreases n
  {
    if n == 0 then [] else [s[start].data] + Window(s, Advance(start, |s|), n - 1)
  }

  /** Each slot of the window is one the FIFO pop hands out. */
  ghost predicate WindowLive(s: seq<Slot>, start: int, n: int, openTransport: bool)
    requires 0 <= start < |s| && 0 <= n <= |s|
  {
    forall k | 0 <= k < n :: Live(s[Pos(start, k, |s|)], openTransport)
  }

  /** `t` is `s` with data and flags kept everywhere except at slot `x`. */
  ghost predicate SameExcept(s: seq<Slot>, t: seq<Slot>, x: int)
  {
    |s| == |t| && forall i | 0 <= i < |s| && i != x :: t[i].data == s[i].data && t[i].flags == s[i].flags
  }

  lemma {:induction false} WindowFrame(s: seq<Slot>, t: seq<Slot>, start: int, n: int)
    requires |s| == |t| && 0 <= start < |s| && 0 <= n <= |s|
    requires forall k | 0 <= k < n :: s[Pos(start, k, |s|)].data == t[Pos(start, k, |s|)].data
    ensures Window(s, start, n) == Window(t, start, n)
    decreases n
  {
    if n > 0 {
      forall k | 0 <= k < n - 1
        ensures s[Pos(Advance(start, |s|), k, |s|)].data == t[Pos(Advance(start, |s|), k, |s|)].data
      {
        PosStep(start, k, |s|);
      }
      WindowFrame(s, t, Advance(start, |s|), n - 1);
      assert Pos(start, 0, |s|) == start;
    }
  }

  lemma {:induction false} WindowAppend(s: seq<Slot>, start: int, n: int)
    requires 0 <= start < |s| && 0 <= n < |s|
    ensures Window(s, start, n + 1) == Window(s, start, n) + [s[Pos(start, n, |s|)].data]
    decreases n
  {
    if n > 0 {
      var next := Advance(start, |s|);
      WindowAppend(s, next, n - 1);
      PosStep(start, n - 1, |s|);
      calc {
        Window(s, start, n + 1);
        [s[start].data] + Window(s, next, n);
        [s[start].data] + (Window(s, next, n - 1) + [s[Pos(next, n - 1, |s|)].data]);
        ([s[start].data] + Window(s, next, n - 1)) + [s[Pos(start, n, |s|)].data];
        Window(s, start, n) + [s[Pos(start, n, |s|)].data];
      }
    }
  }

  /** Writing the slot just past the window appends its message to the window. */
  lemma WindowPush(s: seq<Slot>, t: seq<Slot>, start: int, n: int)
    requires 0 <= start < |s| && 0 <= n < |s|
    requires SameExcept(s, t, Pos(start, n, |s|))
    ensures Window(t, start, n + 1) == Window(s, start, n) + [t[Pos(start, n, |s|)].data]
    ensures WindowLive(s, start, n, false) ==> WindowLive(t, start, n, false)
    ensures WindowLive(s, start, n, true) ==> WindowLive(t, start, n, true)
  {
    WindowAppend(t, start, n);
    WindowFrame(s, t, start, n);
  }

  /** As `WindowPush`, with the appended message and the liveness of the new slot named. */
  lemma WindowPushAt(s: seq<Slot>, t: seq<Slot>, start: int, n: int, d: bytes, ot: bool)
    requires 0 <= start < |s| && 0 <= n < |s|
    requires SameExcept(s, t, Pos(start, n, |s|)) && t[Pos(start, n, |s|)].data == d
    ensures Window(t, start, n + 1) == Window(s, start, n) + [d]
    ensures WindowLive(s, start, n, ot) && Live(t[Pos(start, n, |s|)], ot) ==> WindowLive(t, start, n + 1, ot)
  {
    WindowPush(s, t, start, n);
    if WindowLive(s, start, n, ot) && Live(t[Pos(start, n, |s|)], ot) {
      forall k | 0 <= k < n + 1
        ensures Live(t[Pos(start, k, |s|)], ot)
      {
        if k < n {
          assert Pos(start, k, |s|) != Pos(start, n, |s|);
        }
      }
    }
  }

  /** Clearing the first slot of the window leaves the rest of it, from the next slot on. */
  lemma WindowPop(s: seq<Slot>, t: seq<Slot>, start: int, n: int)
    requires 0 <= start < |s| && 0 < n <= |s|
    requires SameExcept(s, t, start)
    ensures Window(t, Advance(start, |s|), n - 1) == Window(s, start, n)[1..]
    ensures forall ot: bool :: WindowLive(s, start, n, ot) ==> WindowLive(t, Advance(start, |s|), n - 1, ot)
  {
    forall k | 0 <= k < n - 1
      ensures Pos(Advance(start, |s|), k, |s|) == Pos(start, k + 1, |s|) != start
    {
      PosStep(start, k, |s|);
    }
    WindowFrame(s, t, Advance(start, |s|), n - 1);
  }

  // ---------------------------------------------------------------------
  // Priority lists
  // ---------------------------------------------------------------------

  /** The highest level at or below `p` whose list head is set, or -1. */
  function HighestFrom(heads: seq<int>, p: int): (r: int)
    requires |heads| == PRIO_COUNT && -1 <= p < PRIO_COUNT
    ensures -1 <= r <= p
    ensures r >= 0 ==> heads[r] != SLOT_NONE
    ensures forall q | r < q <= p :: heads[q] == SLOT_NONE
    decreases p + 1
  {
    if p < 0 then -1 else if heads[p] != SLOT_NONE then p else HighestFrom(heads, p - 1)
  }

  /** The level the priority pops serve: the highest one with a head, or -1. */
  function Highest(heads: seq<int>): (r: int)
    requires |heads| == PRIO_COUNT
    ensures -1 <= r < PRIO_COUNT
    ensures r >= 0 ==> heads[r] != SLOT_NONE
    ensures forall q | r < q < PRIO_COUNT :: heads[q] == SLOT_NONE
  {
    HighestFrom(heads, PRIO_COUNT - 1)
  }

  /** The slot contents after the previous tail `t` is linked to `w` (no link when the list was empty). */
  function TailLinked(s: seq<Slot>, t: int, w: int): (r: seq<Slot>)
    requires t == SLOT_NONE || 0 <= t < |s|
    ensures |r| == |s|
    ensures forall i | 0 <= i < |s| && i != t :: r[i] == s[i]
    ensures t != SLOT_NONE ==> r[t] == s[t].(next := w)
  {
    if t == SLOT_NONE then s else s[t := s[t].(next := w)]
  }

  /** The hash after the slot `h` holding `key` leaves the queue. */
  function Unhash(hash: seq<int>, key: bv16, h: int): (r: seq<int>)
    requires |hash| == HASH_SIZE
    ensures |r| == HASH_SIZE
    ensures forall b | 0 <= b < HASH_SIZE :: r[b] == (if key != COALESCE_NONE && b == Bucket(key) && hash[b] == h then SLOT_NONE else hash[b])
  {
    if key != COALESCE_NONE && hash[Bucket(key)] == h then hash[Bucket(key) := SLOT_NONE] else hash
  }

  /** A slot after a priority pop or commit has cleared it. */
  function Cleared(s: Slot): Slot { s.(data := [], flags := 0, next := SLOT_NONE) }

  /** A slot after the FIFO pop or consume has cleared it (its link is left alone). */
  function Popped(s: Slot): Slot { s.(data := [], flags := 0) }

  /** The search position `i` of the last-four coalesce, counting back from `w`. */
  function BackIndex(w: int, i: int, cap: int): (r: int)
    requires 0 <= w < cap && 0 <= i < cap
    ensures 0 <= r < cap
  {
    if w >= i + 1 then w - (i + 1) else cap - ((i + 1) - w)
  }

  /** The first of the search positions `i .. n-1` back from `w` whose slot is USED and COALESCABLE. */
  function FirstCoalescable(s: seq<Slot>, w: int, n: int, i: int): (r: Option<int>)
    requires 0 <= w < |s| && 0 <= i <= n <= |s|
    ensures r.Some? ==> exists j | i <= j < n :: r.value == BackIndex(w, j, |s|)
    ensures r.Some? ==> 0 <= r.value < |s| && Used(s[r.value]) && Coalescable(s[r.value])
    ensures r.None? ==> forall j | i <= j < n :: !(Used(s[BackIndex(w, j, |s|)]) && Coalescable(s[BackIndex(w, j, |s|)]))
    decreases n - i
  {
    if i == n then None
    else
      var idx := BackIndex(w, i, |s|);
      if Used(s[idx]) && Coalescable(s[idx]) then Some(idx) else FirstCoalescable(s, w, n, i + 1)
  }

  /** Searching back from `read + count` visits the newest messages of the FIFO window, newest first. */
  lemma BackIndexIsNewest(r: int, n: int, i: int, cap: int)
    requires 0 <= r < cap && 0 <= i < n <= cap
    ensures BackIndex(Pos(r, n, cap), i, cap) == Pos(r, n - 1 - i, cap)
  {
  }

  /** `a / b >= t` exactly when `a >= t * b`. */
  lemma DivAtLeast(a: int, b: int, t: int)
    requires a >= 0 && b > 0 && t >= 0
    ensures a / b >= t <==> a >= t * b
  {
    var q, m := a / b, a % b;
    assert a == b * q + m && 0 <= m < b;
    if q >= t {
      assert b * q >= b * t;
    } else {
      assert b * q <= b * (t - 1);
    }
  }

  // ---------------------------------------------------------------------
  // Shape of the threaded priority lists, over values
  // ---------------------------------------------------------------------

  function First(l: seq<int>): int { if |l| == 0 then SLOT_NONE else l[0] }

  function Final(l: seq<int>): int { if |l| == 0 then SLOT_NONE else l[|l| - 1] }

  /** What `next_slot` of the `k`-th listed slot must hold. */
  function After(l: seq<int>, k: int): int
    requires 0 <= k < |l|
  {
    if k + 1 < |l| then l[k + 1] else SLOT_NONE
  }

  predicate LinkOk(x: int, cap: int) { x == SLOT_NONE || 0 <= x < cap }

  /** Every list head and tail, hash entry and slot link is a slot index or `PT_SLOT_NONE`. */
  ghost predicate LinksInRange(heads: seq<int>, tails: seq<int>, hash: seq<int>, s: seq<Slot>)
  {
    && (forall p | 0 <= p < |heads| :: LinkOk(heads[p], |s|))
    && (forall p | 0 <= p < |tails| :: LinkOk(tails[p], |s|))
    && (forall b | 0 <= b < |hash| :: LinkOk(hash[b], |s|))
    && (forall i | 0 <= i < |s| :: LinkOk(s[i].next, |s|))
  }

  /** Slot `x` is on none of the lists. */
  ghost predicate Unlisted(lists: seq<seq<int>>, x: int)
  {
    forall p | 0 <= p < |lists| :: x !in lists[p]
  }

  /** Each slot of `l` is in range and links to the next one; the last links to `PT_SLOT_NONE`. */
  ghost predicate Threaded(l: seq<int>, s: seq<Slot>)
  {
    forall k | 0 <= k < |l| :: 0 <= l[k] < |s| && s[l[k]].next == After(l, k)
  }

  ghost predicate NoDup(l: seq<int>)
  {
    forall i, j | 0 <= i < j < |l| :: l[i] != l[j]
  }

  ghost predicate Disjoint(a: seq<int>, b: seq<int>)
  {
    forall i | 0 <= i < |a| :: a[i] !in b
  }

  /** Head, tail and count of a level agree with its list. */
  ghost predicate Ends(l: seq<int>, head: int, tail: int, count: int)
  {
    count == |l| && head == First(l) && tail == Final(l)
  }

  /**
   * `lists` are the lists threaded through `s`: each level's head, tail and
   * count match its list, each listed slot links to its successor (the last
   * to `PT_SLOT_NONE`), and no slot is listed twice.
   */
  ghost predicate ListsShape(lists: seq<seq<int>>, heads: seq<int>, tails: seq<int>, counts: seq<int>, s: seq<Slot>)
  {
    && |lists| == PRIO_COUNT && |heads| == PRIO_COUNT && |tails| == PRIO_COUNT && |counts| == PRIO_COUNT
    && |s| < SLOT_NONE
    && (forall p | 0 <= p < PRIO_COUNT ::
          Ends(lists[p], heads[p], tails[p], counts[p]) && Threaded(lists[p], s) && NoDup(lists[p]))
    && (forall p, q | 0 <= p < PRIO_COUNT && 0 <= q < PRIO_COUNT && p != q :: Disjoint(lists[p], lists[q]))
  }

  lemma ThreadedFrame(l: seq<int>, s: seq<Slot>, t: seq<Slot>)
    requires Threaded(l, s) && |t| == |s|
    requires forall k | 0 <= k < |l| :: t[l[k]].next == s[l[k]].next
    ensures Threaded(l, t)
  {
  }

  /** Rewriting slots without touching any link keeps the lists. */
  lemma ListsSameLinks(lists: seq<seq<int>>, heads: seq<int>, tails: seq<int>, counts: seq<int>, s: seq<Slot>, t: seq<Slot>)
    requires ListsShape(lists, heads, tails, counts, s)
    requires |t| == |s| && forall i | 0 <= i < |s| :: t[i].next == s[i].next
    ensures ListsShape(lists, heads, tails, counts, t)
  {
    forall p | 0 <= p < PRIO_COUNT
      ensures Threaded(lists[p], t)
    {
      ThreadedFrame(lists[p], s, t);
    }
  }

  lemma ThreadedAppend(l: seq<int>, s: seq<Slot>, w: int, slot: Slot)
    requires Threaded(l, s) && NoDup(l) && |s| < SLOT_NONE && 0 <= w < |s| && w !in l && slot.next == SLOT_NONE
    ensures Final(l) == SLOT_NONE || 0 <= Final(l) < |s|
    ensures Threaded(l + [w], TailLinked(s[w := slot], Final(l), w))
  {
    var l', s' := l + [w], TailLinked(s[w := slot], Final(l), w);
    forall k | 0 <= k < |l'|
      ensures 0 <= l'[k] < |s'| && s'[l'[k]].next == After(l', k)
    {
      if k == |l| {
        assert |l| > 0 ==> Final(l) == l[|l| - 1] != w;
      } else if k == |l| - 1 {
        assert l'[k] == Final(l);
      } else {
        assert l'[k] == l[k] != w && l[k] != Final(l);
      }
    }
  }

  /** Writing an unlisted slot `w` with no successor and linking it after the tail of level `p` appends it to that list. */
  lemma ListsAppend(lists: seq<seq<int>>, heads: seq<int>, tails: seq<int>, counts: seq<int>, s: seq<Slot>,
                    p: int, w: int, slot: Slot)
    requires ListsShape(lists, heads, tails, counts, s)
    requires 0 <= p < PRIO_COUNT && 0 <= w < |s| && Unlisted(lists, w) && slot.next == SLOT_NONE
    ensures tails[p] == SLOT_NONE || 0 <= tails[p] < |s|
    ensures ListsShape(lists[p := lists[p] + [w]],
                       if tails[p] == SLOT_NONE then heads[p := w] else heads,
                       tails[p := w], counts[p := counts[p] + 1],
                       TailLinked(s[w := slot], tails[p], w))
  {
    var lists' := lists[p := lists[p] + [w]];
    var heads' := if tails[p] == SLOT_NONE then heads[p := w] else heads;
    var tails', counts' := tails[p := w], counts[p := counts[p] + 1];
    var s' := TailLinked(s[w := slot], tails[p], w);
    AppendThreads(lists, heads, tails, counts, s, p, w, slot);
    forall q | 0 <= q < PRIO_COUNT
      ensures Threaded(lists'[q], s')
    {
      if q == p {
        assert lists'[q] == lists[p] + [w];
      }
    }
    forall q | 0 <= q < PRIO_COUNT
      ensures Ends(lists'[q], heads'[q], tails'[q], counts'[q]) && NoDup(lists'[q])
    {
      assert Ends(lists[q], heads[q], tails[q], counts[q]) && NoDup(lists[q]);
    }
    forall q, q' | 0 <= q < PRIO_COUNT && 0 <= q' < PRIO_COUNT && q != q'
      ensures Disjoint(lists'[q], lists'[q'])
    {
      assert Disjoint(lists[q], lists[q']);
    }
    ShapeIntro(lists', heads', tails', counts', s');
  }

  lemma AppendThreads(lists: seq<seq<int>>, heads: seq<int>, tails: seq<int>, counts: seq<int>, s: seq<Slot>,
                      p: int, w: int, slot: Slot)
    requires ListsShape(lists, heads, tails, counts, s)
    requires 0 <= p < PRIO_COUNT && 0 <= w < |s| && Unlisted(lists, w) && slot.next == SLOT_NONE
    ensures tails[p] == SLOT_NONE || 0 <= tails[p] < |s|
    ensures Threaded(lists[p] + [w], TailLinked(s[w := slot], tails[p], w))
    ensures forall q | 0 <= q < PRIO_COUNT && q != p :: Threaded(lists[q], TailLinked(s[w := slot], tails[p], w))
  {
    var t := tails[p];
    assert Ends(lists[p], heads[p], tails[p], counts[p]) && NoDup(lists[p]);
    ThreadedAppend(lists[p], s, w, slot);
    var s' := TailLinked(s[w := slot], t, w);
    forall q | 0 <= q < PRIO_COUNT && q != p
      ensures Threaded(lists[q], s')
    {
      forall k | 0 <= k < |lists[q]|
        ensures s'[lists[q][k]].next == s[lists[q][k]].next
      {
        assert lists[q][k] != w;
        if t != SLOT_NONE {
          assert t == lists[p][|lists[p]| - 1];
          assert Disjoint(lists[p], lists[q]);
          assert lists[q][k] != t;
        }
      }
      ThreadedFrame(lists[q], s, s');
    }
  }

  /** Removing the head of level `p` and clearing its slot drops it from that list. */
  lemma ListsRemoveHead(lists: seq<seq<int>>, heads: seq<int>, tails: seq<int>, counts: seq<int>, s: seq<Slot>,
                        p: int, slot: Slot)
    requires ListsShape(lists, heads, tails, counts, s)
    requires 0 <= p < PRIO_COUNT && |lists[p]| > 0 && slot.next == SLOT_NONE
    ensures var h := lists[p][0]; var nx := s[h].next;
      && 0 <= h < |s|
      && (nx == SLOT_NONE <==> |lists[p]| == 1)
      && ListsShape(lists[p := lists[p][1..]], heads[p := nx],
                    if nx == SLOT_NONE then tails[p := SLOT_NONE] else tails,
                    counts[p := counts[p] - 1], s[h := slot])
  {
    var h := lists[p][0];
    var nx := s[h].next;
    var lists', s' := lists[p := lists[p][1..]], s[h := slot];
    var heads', tails' := heads[p := nx], if nx == SLOT_NONE then tails[p := SLOT_NONE] else tails;
    var counts' := counts[p := counts[p] - 1];
    RemoveThreads(lists, heads, tails, counts, s, p, slot, lists', s');
    RemoveEnds(lists, heads, tails, counts, s, p, lists', heads', tails', counts');
    RemoveDisjoint(lists, p, lists');
    ShapeIntro(lists', heads', tails', counts', s');
  }

  lemma ShapeIntro(lists: seq<seq<int>>, heads: seq<int>, tails: seq<int>, counts: seq<int>, s: seq<Slot>)
    requires |lists| == PRIO_COUNT && |heads| == PRIO_COUNT && |tails| == PRIO_COUNT && |counts| == PRIO_COUNT
    requires |s| < SLOT_NONE
    requires forall p | 0 <= p < PRIO_COUNT :: Ends(lists[p], heads[p], tails[p], counts[p]) && NoDup(lists[p])
    requires forall p | 0 <= p < PRIO_COUNT :: Threaded(lists[p], s)
    requires forall p, q | 0 <= p < PRIO_COUNT && 0 <= q < PRIO_COUNT && p != q :: Disjoint(lists[p], lists[q])
    ensures ListsShape(lists, heads, tails, counts, s)
  {
  }

  lemma RemoveEnds(lists: seq<seq<int>>, heads: seq<int>, tails: seq<int>, counts: seq<int>, s: seq<Slot>, p: int,
                   lists': seq<seq<int>>, heads': seq<int>, tails': seq<int>, counts': seq<int>)
    requires ListsShape(lists, heads, tails, counts, s)
    requires 0 <= p < PRIO_COUNT && |lists[p]| > 0
    requires lists' == lists[p := lists[p][1..]] && heads' == heads[p := s[lists[p][0]].next]
    requires tails' == (if s[lists[p][0]].next == SLOT_NONE then tails[p := SLOT_NONE] else tails)
    requires counts' == counts[p := counts[p] - 1]
    ensures forall q | 0 <= q < PRIO_COUNT :: Ends(lists'[q], heads'[q], tails'[q], counts'[q]) && NoDup(lists'[q])
  {
    assert Ends(lists[p], heads[p], tails[p], counts[p]) && NoDup(lists[p]) && Threaded(lists[p], s);
    TailOfList(lists[p]);
  }

  lemma RemoveDisjoint(lists: seq<seq<int>>, p: int, lists': seq<seq<int>>)
    requires |lists| == PRIO_COUNT && 0 <= p < PRIO_COUNT && |lists[p]| > 0
    requires forall q, q' | 0 <= q < PRIO_COUNT && 0 <= q' < PRIO_COUNT && q != q' :: Disjoint(lists[q], lists[q'])
    requires lists' == lists[p := lists[p][1..]]
    ensures forall q, q' | 0 <= q < PRIO_COUNT && 0 <= q' < PRIO_COUNT && q != q' :: Disjoint(lists'[q], lists'[q'])
  {
    forall q, q' | 0 <= q < PRIO_COUNT && 0 <= q' < PRIO_COUNT && q != q'
      ensures Disjoint(lists'[q], lists'[q'])
    {
      assert Disjoint(lists[q], lists[q']) && Disjoint(lists[q'], lists[q]);
      if q == p {
        DisjointTail(lists[p], lists[q']);
      } else if q' == p {
        DisjointTail(lists[p], lists[q]);
      }
    }
  }

  /** Dropping the head keeps a list duplicate-free and keeps its last element. */
  lemma TailOfList(l: seq<int>)
    requires NoDup(l) && |l| > 0
    ensures NoDup(l[1..])
    ensures |l| > 1 ==> Final(l[1..]) == Final(l)
  {
    forall i, j | 0 <= i < j < |l| - 1
      ensures l[1..][i] != l[1..][j]
    {
      assert l[1..][i] == l[i + 1] && l[1..][j] == l[j + 1];
    }
  }

  lemma DisjointTail(a: seq<int>, b: seq<int>)
    requires Disjoint(a, b) && Disjoint(b, a) && |a| > 0
    ensures Disjoint(a[1..], b) && Disjoint(b, a[1..])
  {
    forall i | 0 <= i < |a| - 1
      ensures a[1..][i] !in b
    {
      assert a[1..][i] == a[i + 1];
    }
    forall i | 0 <= i < |b|
      ensures b[i] !in a[1..]
    {
      assert b[i] !in a && a == [a[0]] + a[1..];
    }
  }

  lemma RemoveThreads(lists: seq<seq<int>>, heads: seq<int>, tails: seq<int>, counts: seq<int>, s: seq<Slot>,
                      p: int, slot: Slot, lists': seq<seq<int>>, s': seq<Slot>)
    requires ListsShape(lists, heads, tails, counts, s)
    requires 0 <= p < PRIO_COUNT && |lists[p]| > 0 && slot.next == SLOT_NONE
    requires lists' == lists[p := lists[p][1..]] && s' == s[lists[p][0] := slot]
    ensures 0 <= lists[p][0] < |s|
    ensures s[lists[p][0]].next == SLOT_NONE <==> |lists[p]| == 1
    ensures s[lists[p][0]].next == First(lists[p][1..])
    ensures forall q | 0 <= q < PRIO_COUNT :: Threaded(lists'[q], s')
  {
    var l := lists[p];
    var h := l[0];
    assert Threaded(l, s) && NoDup(l);
    forall k | 0 <= k < |l| - 1
      ensures 0 <= l[1..][k] < |s'| && s'[l[1..][k]].next == After(l[1..], k)
    {
      assert l[1..][k] == l[k + 1] != h;
    }
    forall q | 0 <= q < PRIO_COUNT && q != p
      ensures Threaded(lists[q], s')
    {
      assert Disjoint(lists[q], l);
      forall k | 0 <= k < |lists[q]|
        ensures lists[q][k] != h
      {
        assert lists[q][k] !in l;
      }
      ThreadedFrame(lists[q], s, s');
    }
  }


  /** Under the list shape, a level has a head exactly when its list is non-empty. */
  lemma HeadsMatchLists(lists: seq<seq<int>>, heads: seq<int>, tails: seq<int>, counts: seq<int>, s: seq<Slot>)
    requires ListsShape(lists, heads, tails, counts, s)
    ensures forall p | 0 <= p < PRIO_COUNT :: heads[p] != SLOT_NONE <==> |lists[p]| > 0
    ensures forall p | 0 <= p < PRIO_COUNT && |lists[p]| > 0 :: heads[p] == lists[p][0]
  {
    forall p | 0 <= p < PRIO_COUNT
      ensures heads[p] != SLOT_NONE <==> |lists[p]| > 0
    {
      assert Ends(lists[p], heads[p], tails[p], counts[p]) && Threaded(lists[p], s);
    }
  }


  // ---------------------------------------------------------------------
  // The extension tables as a value
  // ---------------------------------------------------------------------

  /** `pt_queue_ext`: head, tail and count of each priority level, and the coalesce hash. */
  datatype Ext = Ext(prioHead: seq<int>, prioTail: seq<int>, prioCount: seq<int>, coalesceHash: seq<int>)

  /** The deferred-logging flags an ISR push sets for the main loop. */
  datatype IsrFlags = IsrFlags(queueFull: bool, coalesceHit: bool, hashCollision: bool)

  const NoIsrFlags: IsrFlags := IsrFlags(false, false, false)

  /** The tables as `pt_queue_ext_init` leaves them: every list empty, every bucket free. */
  const EmptyExt: Ext := Ext([SLOT_NONE, SLOT_NONE, SLOT_NONE, SLOT_NONE], [SLOT_NONE, SLOT_NONE, SLOT_NONE, SLOT_NONE],
                             [0, 0, 0, 0], seq(HASH_SIZE, _ => SLOT_NONE))

  ghost predicate ExtFits(e: Ext)
  {
    |e.prioHead| == PRIO_COUNT && |e.prioTail| == PRIO_COUNT && |e.prioCount| == PRIO_COUNT && |e.coalesceHash| == HASH_SIZE
  }

  ghost predicate ExtLinks(e: Ext, s: seq<Slot>)
  {
    ExtFits(e) && LinksInRange(e.prioHead, e.prioTail, e.coalesceHash, s)
  }

  ghost predicate ExtShape(lists: seq<seq<int>>, e: Ext, s: seq<Slot>)
  {
    ListsShape(lists, e.prioHead, e.prioTail, e.prioCount, s)
  }

  /** The tables after slot `w` is appended to level `p`. */
  function Appended(e: Ext, p: int, w: int): (r: Ext)
    requires ExtFits(e) && 0 <= p < PRIO_COUNT
    ensures ExtFits(r) && r.coalesceHash == e.coalesceHash
  {
    e.(prioHead := if e.prioTail[p] == SLOT_NONE then e.prioHead[p := w] else e.prioHead,
       prioTail := e.prioTail[p := w], prioCount := e.prioCount[p := e.prioCount[p] + 1])
  }

  /** The tables after the head `h` (holding `key`, linked to `nx`) leaves level `p`. */
  function Unlinked(e: Ext, p: int, h: int, nx: int, key: bv16): (r: Ext)
    requires ExtFits(e) && 0 <= p < PRIO_COUNT
    ensures ExtFits(r)
  {
    Ext(e.prioHead[p := nx], if nx == SLOT_NONE then e.prioTail[p := SLOT_NONE] else e.prioTail,
        e.prioCount[p := e.prioCount[p] - 1], Unhash(e.coalesceHash, key, h))
  }

  /** The number of listed slots over all four levels. */
  ghost function Total(lists: seq<seq<int>>): int
    requires |lists| == PRIO_COUNT
  {
    |lists[0]| + |lists[1]| + |lists[2]| + |lists[3]|
  }

  lemma TotalUpdate(lists: seq<seq<int>>, p: int, l: seq<int>)
    requires |lists| == PRIO_COUNT && 0 <= p < PRIO_COUNT
    ensures Total(lists[p := l]) == Total(lists) - |lists[p]| + |l|
  {
  }

  /** Appending keeps every link in range. */
  lemma AppendKeepsLinks(e: Ext, s: seq<Slot>, p: int, w: int, slot: Slot)
    requires ExtLinks(e, s) && 0 <= p < PRIO_COUNT && 0 <= w < |s| && LinkOk(slot.next, |s|)
    ensures ExtLinks(Appended(e, p, w), TailLinked(s[w := slot], e.prioTail[p], w))
  {
  }

  /** Appending an unlisted slot to level `p` appends it to the ghost list of that level. */
  lemma AppendKeepsShape(lists: seq<seq<int>>, e: Ext, s: seq<Slot>, p: int, w: int, slot: Slot)
    requires ExtShape(lists, e, s) && ExtFits(e)
    requires 0 <= p < PRIO_COUNT && 0 <= w < |s| && Unlisted(lists, w) && slot.next == SLOT_NONE
    ensures e.prioTail[p] == SLOT_NONE || 0 <= e.prioTail[p] < |s|
    ensures ExtShape(lists[p := lists[p] + [w]], Appended(e, p, w), TailLinked(s[w := slot], e.prioTail[p], w))
  {
    ListsAppend(lists, e.prioHead, e.prioTail, e.prioCount, s, p, w, slot);
  }

  lemma EmptyShape(s: seq<Slot>)
    requires |s| < SLOT_NONE
    ensures ExtShape([[], [], [], []], EmptyExt, s)
  {
    ShapeIntro([[], [], [], []], EmptyExt.prioHead, EmptyExt.prioTail, EmptyExt.prioCount, s);
  }

  /** The head `h` of level `p` leaving keeps every link in range. */
  lemma UnlinkKeepsLinks(e: Ext, s: seq<Slot>, p: int, h: int, slot: Slot)
    requires ExtLinks(e, s) && 0 <= p < PRIO_COUNT && 0 <= h < |s| && slot.next == SLOT_NONE
    ensures ExtLinks(Unlinked(e, p, h, s[h].next, s[h].key), s[h := slot])
  {
  }

  /** Unlinking the head of a non-empty level drops it from the ghost list of that level. */
  lemma UnlinkKeepsShape(lists: seq<seq<int>>, e: Ext, s: seq<Slot>, p: int, slot: Slot)
    requires ExtShape(lists, e, s) && ExtFits(e)
    requires 0 <= p < PRIO_COUNT && |lists[p]| > 0 && slot.next == SLOT_NONE
    ensures 0 <= lists[p][0] < |s| && e.prioHead[p] == lists[p][0]
    ensures ExtShape(lists[p := lists[p][1..]], Unlinked(e, p, lists[p][0], s[lists[p][0]].next, s[lists[p][0]].key),
                     s[lists[p][0] := slot])
  {
    HeadsMatchLists(lists, e.prioHead, e.prioTail, e.prioCount, s);
    ListsRemoveHead(lists, e.prioHead, e.prioTail, e.prioCount, s, p, slot);
  }

  // ---------------------------------------------------------------------
  // The ring header
  // ---------------------------------------------------------------------

  /** The header fields of `pt_queue`: magic, capacity, the two indices, the depth and `has_data`. */
  datatype Ring = Ring(magicOk: bool, capacity: int, writeIdx: int, readIdx: int, count: int, hasData: bool)

  /** What every operation keeps of the header, for a slot array of `len` entries. */
  ghost predicate RingOk(r: Ring, len: int)
  {
    && 0 <= r.count && r.hasData == (r.count > 0)
    && (r.magicOk ==>
          && 0 < r.capacity < SLOT_NONE && len == r.capacity
          && 0 <= r.readIdx < r.capacity && 0 <= r.writeIdx < r.capacity && r.count <= r.capacity)
    && (!r.magicOk ==> r == Ring(false, 0, 0, 0, 0, false))
  }

  /** The header after a message is written at `write_idx`. */
  function RingPush(r: Ring): (r': Ring)
    requires 0 <= r.writeIdx < r.capacity
  {
    r.(writeIdx := Advance(r.writeIdx, r.capacity), count := r.count + 1, hasData := true)
  }

  /** The header after the message at `read_idx` is taken. */
  function RingPop(r: Ring): (r': Ring)
    requires 0 <= r.readIdx < r.capacity
  {
    r.(readIdx := Advance(r.readIdx, r.capacity), count := r.count - 1, hasData := r.count - 1 > 0)
  }

  /** The header after a priority pop, which leaves both indices alone. */
  function RingTake(r: Ring): (r': Ring)
  {
    r.(count := r.count - 1, hasData := r.count - 1 > 0)
  }

  // ---------------------------------------------------------------------
  // Status (pt_queue_count, _free_slots, _pressure, _is_full, _is_empty, _backpressure)
  // ---------------------------------------------------------------------

  function Count(r: Ring): (n: int)
    requires RingOk(r, r.capacity)
    ensures 0 <= n && (r.magicOk ==> n <= r.capacity) && (!r.magicOk ==> n == 0)
  {
    if !r.magicOk then 0 else r.count
  }

  /** The free slots and the depth add up to the capacity. */
  function FreeSlots(r: Ring): (n: int)
    requires RingOk(r, r.capacity)
    ensures 0 <= n && n + Count(r) == (if r.magicOk then r.capacity else 0)
  {
    if !r.magicOk then 0 else r.capacity - r.count
  }

  /** Fill level in percent, clamped to 100. */
  function Pressure(r: Ring): (p: int)
    requires RingOk(r, r.capacity)
    ensures 0 <= p <= 100
  {
    if !r.magicOk || r.capacity == 0 then 0 else Min(100, r.count * 100 / r.capacity)
  }

  /** Full exactly when an initialised queue has no free slot. */
  function IsFull(r: Ring): (b: int)
    requires RingOk(r, r.capacity)
    ensures b == 0 || b == 1
    ensures b == 1 <==> r.magicOk && FreeSlots(r) == 0
  {
    if !r.magicOk then 0 else if r.count >= r.capacity then 1 else 0
  }

  /** Empty exactly when no message is counted; an uninitialised queue reads as empty. */
  function IsEmpty(r: Ring): (b: int)
    requires RingOk(r, r.capacity)
    ensures b == 0 || b == 1
    ensures b == 1 <==> Count(r) == 0
  {
    if !r.magicOk then 1 else if r.count == 0 then 1 else 0
  }

  function BackpressureOf(r: Ring): (b: Backpressure)
    requires RingOk(r, r.capacity)
  {
    var pressure := Pressure(r);
    if pressure >= PRESSURE_CRITICAL then Blocking
    else if pressure >= PRESSURE_HIGH then Heavy
    else if pressure >= PRESSURE_MEDIUM then Light
    else NoPressure
  }

  /** The pressure reaches 100 exactly when the queue is full. */
  lemma PressureFull(r: Ring)
    requires RingOk(r, r.capacity) && r.magicOk
    ensures Pressure(r) == 100 <==> IsFull(r) == 1
  {
    DivAtLeast(r.count * 100, r.capacity, 100);
  }

  /** The backpressure levels in terms of depth and capacity: 90%, 75% and 50% of the slots. */
  lemma BackpressureLevels(r: Ring)
    requires RingOk(r, r.capacity) && r.magicOk
    ensures BackpressureOf(r) == Blocking <==> 100 * r.count >= 90 * r.capacity
    ensures BackpressureOf(r) == Heavy <==> 90 * r.capacity > 100 * r.count >= 75 * r.capacity
    ensures BackpressureOf(r) == Light <==> 75 * r.capacity > 100 * r.count >= 50 * r.capacity
    ensures BackpressureOf(r) == NoPressure <==> 50 * r.capacity > 100 * r.count
  {
    var a := r.count * 100;
    DivAtLeast(a, r.capacity, 90);
    DivAtLeast(a, r.capacity, 75);
    DivAtLeast(a, r.capacity, 50);
    DivAtLeast(a, r.capacity, 100);
  }

  /** The `pt_queue_try_push` policy: BLOCKING drops all but CRITICAL, HEAVY drops LOW and NORMAL. */
  predicate Drops(b: Backpressure, priority: int)
  {
    (b == Blocking && priority < PRIO_CRITICAL) || (b == Heavy && priority < PRIO_HIGH)
  }

  /**
   * The policy in terms of the pressure: a CRITICAL message is never
   * dropped, a HIGH one only from 90%, LOW and NORMAL ones from 75%.
   */
  lemma DropsByPressure(r: Ring, priority: int)
    requires RingOk(r, r.capacity) && 0 <= priority < PRIO_COUNT
    ensures Drops(BackpressureOf(r), priority) <==>
      (priority < PRIO_CRITICAL && Pressure(r) >= PRESSURE_CRITICAL)
      || (priority < PRIO_HIGH && Pressure(r) >= PRESSURE_HIGH)
  {
  }

  /** A level with a head and no head above it is the one `Highest` picks; with no head at all it is -1. */
  lemma HighestIsTop(heads: seq<int>, p: int)
    requires |heads| == PRIO_COUNT && -1 <= p < PRIO_COUNT
    requires p >= 0 ==> heads[p] != SLOT_NONE
    requires forall q | p < q < PRIO_COUNT :: heads[q] == SLOT_NONE
    ensures Highest(heads) == p
  {
  }



  /** The last-four search back from `read + count` only ever picks one of the `n` newest queued messages. */
  lemma CoalesceTargetsNewest(s: seq<Slot>, r: int, c: int, n: int)
    requires 0 <= r < |s| && 0 <= n <= c <= |s|
    requires FirstCoalescable(s, Pos(r, c, |s|), n, 0).Some?
    ensures exists k | c - n <= k < c :: FirstCoalescable(s, Pos(r, c, |s|), n, 0).value == Pos(r, k, |s|)
  {
    var j :| 0 <= j < n && FirstCoalescable(s, Pos(r, c, |s|), n, 0).value == BackIndex(Pos(r, c, |s|), j, |s|);
    BackIndexIsNewest(r, c, j, |s|);
  }

  // ---------------------------------------------------------------------
  // The FIFO view over header and slot values
  // ---------------------------------------------------------------------

  /** The FIFO view is intact: the next write goes right after the last queued message. */
  ghost predicate Aligned(r: Ring)
  {
    r.magicOk && 0 <= r.readIdx < r.capacity && 0 <= r.count <= r.capacity
    && r.writeIdx == Pos(r.readIdx, r.count, r.capacity)
  }

  /** The queued messages, oldest first. */
  ghost function Queued(s: seq<Slot>, r: Ring): (q: seq<bytes>)
    requires RingOk(r, |s|) && r.magicOk
    ensures |q| == r.count
  {
    Window(s, r.readIdx, r.count)
  }

  /** Every queued slot is one the FIFO pop hands out. */
  ghost predicate QueuedLive(s: seq<Slot>, r: Ring, openTransport: bool)
    requires RingOk(r, |s|) && r.magicOk
  {
    WindowLive(s, r.readIdx, r.count, openTransport)
  }

  /** A push writes the slot at `write_idx` and moves the header on: its message joins the back of the queue. */
  lemma PushEnqueues(s: seq<Slot>, t: seq<Slot>, r: Ring, d: bytes, ot: bool)
    requires RingOk(r, |s|) && Aligned(r) && r.count < r.capacity
    requires SameExcept(s, t, r.writeIdx) && t[r.writeIdx].data == d
    ensures RingOk(RingPush(r), |t|) && Aligned(RingPush(r))
    ensures Queued(t, RingPush(r)) == Queued(s, r) + [d]
    ensures QueuedLive(s, r, ot) && Live(t[r.writeIdx], ot) ==> QueuedLive(t, RingPush(r), ot)
  {
    PosNext(r.readIdx, r.count, r.capacity);
    WindowPushAt(s, t, r.readIdx, r.count, d, ot);
  }

  /** A FIFO pop hands out the front message and the rest stay queued in order. */
  lemma PopDequeues(s: seq<Slot>, t: seq<Slot>, r: Ring, ot: bool)
    requires RingOk(r, |s|) && Aligned(r) && r.count > 0
    requires SameExcept(s, t, r.readIdx)
    ensures RingOk(RingPop(r), |t|) && Aligned(RingPop(r))
    ensures s[r.readIdx].data == Queued(s, r)[0]
    ensures Queued(t, RingPop(r)) == Queued(s, r)[1..]
    ensures QueuedLive(s, r, ot) ==> Live(s[r.readIdx], ot) && QueuedLive(t, RingPop(r), ot)
  {
    PosStep(r.readIdx, r.count - 1, r.capacity);
    WindowPop(s, t, r.readIdx, r.count);
    if QueuedLive(s, r, ot) {
      assert Pos(r.readIdx, 0, r.capacity) == r.readIdx;
    }
  }

  lemma {:induction false} WindowUpdate(s: seq<Slot>, start: int, n: int, k: int, d: bytes)
    requires 0 <= start < |s| && 0 <= k < n <= |s|
    ensures var i := Pos(start, k, |s|);
      Window(s[i := s[i].(data := d)], start, n) == Window(s, start, n)[k := d]
    decreases n
  {
    var next := Advance(start, |s|);
    if k == 0 {
      WindowTailFrame(s, start, n, d);
    } else {
      var i := Pos(start, k, |s|);
      var t := s[i := s[i].(data := d)];
      PosStep(start, k - 1, |s|);
      WindowUpdate(s, next, n - 1, k - 1, d);
      assert i != start;
      assert Window(t, start, n) == [s[start].data] + Window(s, next, n - 1)[k - 1 := d];
    }
  }

  /** Rewriting the first slot of a window leaves the rest of it. */
  lemma WindowTailFrame(s: seq<Slot>, start: int, n: int, d: bytes)
    requires 0 <= start < |s| && 0 < n <= |s|
    ensures Window(s[start := s[start].(data := d)], Advance(start, |s|), n - 1) == Window(s, Advance(start, |s|), n - 1)
  {
    var next := Advance(start, |s|);
    var t := s[start := s[start].(data := d)];
    forall j | 0 <= j < n - 1
      ensures s[Pos(next, j, |s|)].data == t[Pos(next, j, |s|)].data
    {
      PosStep(start, j, |s|);
    }
    WindowFrame(s, t, next, n - 1);
  }

  /** Replacing the message of the `k`-th queued slot replaces the `k`-th queued message and nothing else. */
  lemma ReplaceQueued(s: seq<Slot>, r: Ring, k: int, d: bytes)
    requires RingOk(r, |s|) && r.magicOk && 0 <= k < r.count
    ensures var i := Pos(r.readIdx, k, |s|);
      Queued(s[i := s[i].(data := d)], r) == Queued(s, r)[k := d]
  {
    WindowUpdate(s, r.readIdx, r.count, k, d);
  }

  // ---------------------------------------------------------------------
  // Priority lists and the coalesce hash over values
  // ---------------------------------------------------------------------

  /** The hash after a new slot `w` holding `key` is entered (a zero key is never hashed). */
  function Hashed(e: Ext, key: bv16, w: int): (r: Ext)
    requires ExtFits(e)
    ensures ExtFits(r) && r.prioHead == e.prioHead && r.prioTail == e.prioTail && r.prioCount == e.prioCount
  {
    if key == COALESCE_NONE then e else e.(coalesceHash := e.coalesceHash[Bucket(key) := w])
  }

  /** The slot a coalescing push replaces: the one the bucket of `key` names, if it is in use and holds `key`. */
  function HashHit(e: Ext, s: seq<Slot>, key: bv16): (r: Option<int>)
    requires ExtLinks(e, s)
    ensures r.Some? ==> key != COALESCE_NONE && 0 <= r.value < |s| && Used(s[r.value]) && s[r.value].key == key
    ensures r.None? && key != COALESCE_NONE && e.coalesceHash[Bucket(key)] != SLOT_NONE ==>
      var h := e.coalesceHash[Bucket(key)]; 0 <= h < |s| && !(Used(s[h]) && s[h].key == key)
  {
    if key == COALESCE_NONE then None
    else
      var h := e.coalesceHash[Bucket(key)];
      if h != SLOT_NONE && Used(s[h]) && s[h].key == key then Some(h) else None
  }

  /** After a new keyed slot is appended and hashed, the next push with the same key finds it. */
  lemma NewSlotIsHit(e: Ext, s: seq<Slot>, p: int, w: int, slot: Slot)
    requires ExtLinks(e, s) && 0 <= p < PRIO_COUNT && 0 <= w < |s| && LinkOk(slot.next, |s|)
    requires Used(slot) && slot.key != COALESCE_NONE && |s| < SLOT_NONE
    ensures ExtLinks(Hashed(Appended(e, p, w), slot.key, w), TailLinked(s[w := slot], e.prioTail[p], w))
    ensures HashHit(Hashed(Appended(e, p, w), slot.key, w), TailLinked(s[w := slot], e.prioTail[p], w), slot.key) == Some(w)
  {
    AppendKeepsLinks(e, s, p, w, slot);
    var e', s' := Hashed(Appended(e, p, w), slot.key, w), TailLinked(s[w := slot], e.prioTail[p], w);
    assert e'.coalesceHash[Bucket(slot.key)] == w;
    assert s'[w].flags == slot.flags && s'[w].key == slot.key;
  }

  /**
   * A priority pop serves the head of the highest non-empty level.  While
   * any message is listed there is such a level; unlinking its head drops
   * exactly that slot from its list and one message from the total.
   */
  lemma PriorityPopServesTop(lists: seq<seq<int>>, e: Ext, s: seq<Slot>)
    requires ExtShape(lists, e, s) && ExtFits(e)
    ensures Total(lists) > 0 <==> Highest(e.prioHead) >= 0
    ensures var p := Highest(e.prioHead);
      p >= 0 ==>
        var h := e.prioHead[p];
        && |lists[p]| > 0 && h == lists[p][0] && 0 <= h < |s|
        && (forall q | p < q < PRIO_COUNT :: |lists[q]| == 0)
        && ExtShape(lists[p := lists[p][1..]], Unlinked(e, p, h, s[h].next, s[h].key), s[h := Cleared(s[h])])
        && Total(lists[p := lists[p][1..]]) == Total(lists) - 1
  {
    HeadsMatchLists(lists, e.prioHead, e.prioTail, e.prioCount, s);
    var p := Highest(e.prioHead);
    if p >= 0 {
      UnlinkKeepsShape(lists, e, s, p, Cleared(s[e.prioHead[p]]));
      TotalUpdate(lists, p, lists[p][1..]);
    } else {
      assert forall q | 0 <= q < PRIO_COUNT :: |lists[q]| == 0;
    }
  }

  /** The messages of the slots listed in `l`, in list order. */
  ghost function ListedData(l: seq<int>, s: seq<Slot>): (d: seq<bytes>)
    ensures |d| == |l|
  {
    if |l| == 0 then [] else [if 0 <= l[0] < |s| then s[l[0]].data else []] + ListedData(l[1..], s)
  }

  /**
   * The queued messages in the order the priority pops serve them: the
   * CRITICAL list first, then HIGH, NORMAL and LOW, each from head to tail.
   */
  ghost function Order(lists: seq<seq<int>>, s: seq<Slot>): (d: seq<bytes>)
    requires |lists| == PRIO_COUNT
    ensures |d| == Total(lists)
  {
    ListedData(lists[3], s) + ListedData(lists[2], s) + ListedData(lists[1], s) + ListedData(lists[0], s)
  }

  /** Changing a slot that `l` does not list leaves its messages as they were. */
  lemma {:induction false} ListedDataFrame(l: seq<int>, s: seq<Slot>, h: int, x: Slot)
    requires 0 <= h < |s| && h !in l
    ensures ListedData(l, s[h := x]) == ListedData(l, s)
  {
    if |l| > 0 {
      assert h !in l[1..];
      ListedDataFrame(l[1..], s, h, x);
    }
  }

  /** Dropping the head of a list without duplicates, and clearing its slot, drops its first message. */
  lemma ListedDataPop(l: seq<int>, s: seq<Slot>, x: Slot)
    requires |l| > 0 && 0 <= l[0] < |s| && NoDup(l)
    ensures ListedData(l, s) == [s[l[0]].data] + ListedData(l[1..], s[l[0] := x])
  {
    var h := l[0];
    forall k | 0 <= k < |l| - 1
      ensures l[1..][k] != h
    {
      assert l[k + 1] != l[0];
    }
    ListedDataFrame(l[1..], s, h, x);
  }

  /**
   * Four levels read from the top, when one loses its first element, the
   * levels above it being empty and the others unchanged.
   */
  lemma ConcatLevels(a: seq<seq<bytes>>, b: seq<seq<bytes>>, p: int, d: bytes)
    requires |a| == PRIO_COUNT && |b| == PRIO_COUNT && 0 <= p < PRIO_COUNT
    requires a[p] == [d] + b[p]
    requires forall q | 0 <= q < PRIO_COUNT && q != p :: a[q] == b[q]
    requires forall q | p < q < PRIO_COUNT :: a[q] == []
    ensures a[3] + a[2] + a[1] + a[0] == [d] + (b[3] + b[2] + b[1] + b[0])
  {
    if p == 3 {
    } else if p == 2 {
      assert a[3] == [];
    } else if p == 1 {
      assert a[3] == [] && a[2] == [];
    } else {
      assert a[3] == [] && a[2] == [] && a[1] == [];
    }
  }

  /**
   * The order after one level loses its first message, the levels above
   * it being empty and the others unchanged.
   */
  lemma OrderStep(lists: seq<seq<int>>, lists': seq<seq<int>>, s: seq<Slot>, s': seq<Slot>, p: int, d: bytes)
    requires |lists| == PRIO_COUNT && |lists'| == PRIO_COUNT && 0 <= p < PRIO_COUNT
    requires ListedData(lists[p], s) == [d] + ListedData(lists'[p], s')
    requires forall q | 0 <= q < PRIO_COUNT && q != p :: ListedData(lists'[q], s') == ListedData(lists[q], s)
    requires forall q | p < q < PRIO_COUNT :: lists[q] == []
    ensures Order(lists, s) == [d] + Order(lists', s')
  {
    var a := seq(PRIO_COUNT, q requires 0 <= q < PRIO_COUNT => ListedData(lists[q], s));
    var b := seq(PRIO_COUNT, q requires 0 <= q < PRIO_COUNT => ListedData(lists'[q], s'));
    ConcatLevels(a, b, p, d);
  }

  /**
   * A priority pop takes the first message in `Order` and leaves the
   * rest, in order, on the lists that remain.
   */
  lemma PopTakesFirst(lists: seq<seq<int>>, e: Ext, s: seq<Slot>)
    requires ExtShape(lists, e, s) && ExtFits(e) && Highest(e.prioHead) >= 0
    ensures var p := Highest(e.prioHead);
            var h := e.prioHead[p];
            && 0 <= h < |s| && |lists[p]| > 0 && h == lists[p][0]
            && Order(lists, s) == [s[h].data] + Order(lists[p := lists[p][1..]], s[h := Cleared(s[h])])
  {
    PriorityPopServesTop(lists, e, s);
    var p := Highest(e.prioHead);
    var h := e.prioHead[p];
    var s' := s[h := Cleared(s[h])];
    var lists' := lists[p := lists[p][1..]];
    assert NoDup(lists[p]);
    ListedDataPop(lists[p], s, Cleared(s[h]));
    forall q | 0 <= q < PRIO_COUNT && q != p
      ensures ListedData(lists'[q], s') == ListedData(lists[q], s)
    {
      assert Disjoint(lists[p], lists[q]);
      ListedDataFrame(lists[q], s, h, Cleared(s[h]));
    }
    OrderStep(lists, lists', s, s', p, s[h].data);
  }

  /** A new slot entered by a coalescing push joins the tail of its level's list, as with a plain push. */
  lemma KeyedAppendKeepsShape(lists: seq<seq<int>>, e: Ext, s: seq<Slot>, p: int, w: int, slot: Slot)
    requires ExtShape(lists, e, s) && ExtFits(e)
    requires 0 <= p < PRIO_COUNT && 0 <= w < |s| && Unlisted(lists, w) && slot.next == SLOT_NONE
    ensures e.prioTail[p] == SLOT_NONE || 0 <= e.prioTail[p] < |s|
    ensures ExtShape(lists[p := lists[p] + [w]], Hashed(Appended(e, p, w), slot.key, w),
                     TailLinked(s[w := slot], e.prioTail[p], w))
  {
    AppendKeepsShape(lists, e, s, p, w, slot);
  }

  /** The last-four coalesce replaces one of the (at most four) newest queued messages and leaves the rest. */
  lemma CoalesceReplacesRecent(s: seq<Slot>, r: Ring, d: bytes)
    requires RingOk(r, |s|) && Aligned(r)
    requires FirstCoalescable(s, r.writeIdx, Min(r.count, 4), 0).Some?
    ensures var i := FirstCoalescable(s, r.writeIdx, Min(r.count, 4), 0).value;
      exists k | r.count - Min(r.count, 4) <= k < r.count :: Queued(s[i := s[i].(data := d)], r) == Queued(s, r)[k := d] && i == Pos(r.readIdx, k, |s|)
  {
    var i := FirstCoalescable(s, r.writeIdx, Min(r.count, 4), 0).value;
    CoalesceTargetsNewest(s, r.readIdx, r.count, Min(r.count, 4));
    var k :| r.count - Min(r.count, 4) <= k < r.count && i == Pos(r.readIdx, k, |s|);
    ReplaceQueued(s, r, k, d);
  }

  // ---------------------------------------------------------------------
  // The write slot of the coalescing push
  // ---------------------------------------------------------------------

  /** A one-byte unkeyed message at level `prio`, as a coalescing push leaves its slot. */
  function Msg(c: byte, prio: int): Slot { Slot([c], prio, SLOT_USED, COALESCE_NONE, SLOT_NONE, 0) }

  /** The slots and tables after the coalescing pushes and priority pops of `OverwriteScenario`, before E. */
  const ScenarioSlots: seq<Slot> := [Msg(0x41, 0).(next := 2), Cleared(Msg(0x42, 3)), Msg(0x43, 0).(next := 3), Msg(0x44, 0)]
  const ScenarioExt: Ext := EmptyExt.(prioHead := [0, SLOT_NONE, SLOT_NONE, SLOT_NONE],
                                      prioTail := [3, SLOT_NONE, SLOT_NONE, SLOT_NONE], prioCount := [3, 0, 0, 0])

  /** The same after E is pushed at slot 0. */
  const OverwrittenSlots: seq<Slot> := [Msg(0x45, 0), Cleared(Msg(0x42, 3)), Msg(0x43, 0).(next := 3), Msg(0x44, 0).(next := 0)]
  const OverwrittenExt: Ext := ScenarioExt.(prioTail := [0, SLOT_NONE, SLOT_NONE, SLOT_NONE], prioCount := [4, 0, 0, 0])

  /**
   * With four slots: A (level 0) goes to slot 0, B (level 3) to slot 1, the
   * priority pop takes B, then C and D (level 0) go to slots 2 and 3.  The
   * ring count is then 3, so the next push is allowed, and `write_idx` has
   * come round to slot 0 — which still holds A, the head of level 0.
   */
  lemma OverwriteScenario()
    ensures var s0, e0 := seq(4, _ => ZeroSlot.(next := SLOT_NONE)), EmptyExt;
      var s1, e1 := TailLinked(s0[0 := Msg(0x41, 0)], e0.prioTail[0], 0), Hashed(Appended(e0, 0, 0), COALESCE_NONE, 0);
      var s2, e2 := TailLinked(s1[1 := Msg(0x42, 3)], e1.prioTail[3], 1), Hashed(Appended(e1, 3, 1), COALESCE_NONE, 1);
      var s3, e3 := s2[1 := Cleared(s2[1])], Unlinked(e2, 3, 1, s2[1].next, s2[1].key);
      var s4, e4 := TailLinked(s3[2 := Msg(0x43, 0)], e3.prioTail[0], 2), Hashed(Appended(e3, 0, 2), COALESCE_NONE, 2);
      var s5, e5 := TailLinked(s4[3 := Msg(0x44, 0)], e4.prioTail[0], 3), Hashed(Appended(e4, 0, 3), COALESCE_NONE, 3);
      && Highest(e2.prioHead) == 3 && e2.prioHead[3] == 1
      && s5 == ScenarioSlots && e5 == ScenarioExt
      && Advance(Advance(Advance(Advance(0, 4), 4), 4), 4) == 0
  {
    var s0, e0 := seq(4, _ => ZeroSlot.(next := SLOT_NONE)), EmptyExt;
    var s1, e1 := TailLinked(s0[0 := Msg(0x41, 0)], e0.prioTail[0], 0), Hashed(Appended(e0, 0, 0), COALESCE_NONE, 0);
    var s2, e2 := TailLinked(s1[1 := Msg(0x42, 3)], e1.prioTail[3], 1), Hashed(Appended(e1, 3, 1), COALESCE_NONE, 1);
    var s3, e3 := s2[1 := Cleared(s2[1])], Unlinked(e2, 3, 1, s2[1].next, s2[1].key);
    var s4, e4 := TailLinked(s3[2 := Msg(0x43, 0)], e3.prioTail[0], 2), Hashed(Appended(e3, 0, 2), COALESCE_NONE, 2);
    var s5, e5 := TailLinked(s4[3 := Msg(0x44, 0)], e4.prioTail[0], 3), Hashed(Appended(e4, 0, 3), COALESCE_NONE, 3);
    assert e3.coalesceHash == EmptyExt.coalesceHash;
  }

  lemma ScenarioShape()
    ensures ExtShape([[0, 2, 3], [], [], []], ScenarioExt, ScenarioSlots)
  {
    var s5, e5 := ScenarioSlots, ScenarioExt;
    var l5 := [[0, 2, 3], [], [], []];
    assert Threaded(l5[0], s5);
    assert NoDup(l5[0]);
    ShapeIntro(l5, e5.prioHead, e5.prioTail, e5.prioCount, s5);
  }

  /**
   * The coalescing push takes the slot at `write_idx` whatever it holds.  In
   * the state of `OverwriteScenario` the tables describe the lists exactly
   * and slot 0 is listed; pushing E (level 0) there overwrites A, and no
   * lists at all fit the tables afterwards (level 0 counts four messages but
   * its head now ends the list).
   */
  lemma OverwriteBreaksLists()
    ensures ExtShape([[0, 2, 3], [], [], []], ScenarioExt, ScenarioSlots)
    ensures !Unlisted([[0, 2, 3], [], [], []], 0)
    ensures OverwrittenSlots == TailLinked(ScenarioSlots[0 := Msg(0x45, 0)], ScenarioExt.prioTail[0], 0)
    ensures OverwrittenExt == Hashed(Appended(ScenarioExt, 0, 0), COALESCE_NONE, 0)
    ensures forall lists :: !ExtShape(lists, OverwrittenExt, OverwrittenSlots)
  {
    ScenarioShape();
    var s5, e5 := ScenarioSlots, ScenarioExt;
    var s6, e6 := OverwrittenSlots, OverwrittenExt;
    assert s6 == TailLinked(s5[0 := Msg(0x45, 0)], e5.prioTail[0], 0);
    assert s6[0].next == SLOT_NONE && e6.prioHead[0] == 0 && e6.prioCount[0] == 4;
  }

  /** Every listed slot is in range and USED. */
  ghost predicate ListedUsed(lists: seq<seq<int>>, s: seq<Slot>)
  {
    forall p, k | 0 <= p < |lists| && 0 <= k < |lists[p]| :: 0 <= lists[p][k] < |s| && Used(s[lists[p][k]])
  }

  /**
   * The slot the coalescing push should take: the first one from `write_idx`
   * round the ring that is not USED, which is what the comment at
   * queue.c:748 describes (a free slot, searched from `write_idx`).
   */
  function FreeFrom(s: seq<Slot>, w: int, k: int): (r: Option<int>)
    requires 0 <= w < |s| && 0 <= k <= |s|
    ensures r.Some? ==> 0 <= r.value < |s| && !Used(s[r.value])
    ensures r.None? ==> forall j | k <= j < |s| :: Used(s[Pos(w, j, |s|)])
    decreases |s| - k
  {
    if k == |s| then None
    else if !Used(s[Pos(w, k, |s|)]) then Some(Pos(w, k, |s|))
    else FreeFrom(s, w, k + 1)
  }

  /** Taking a slot that is not USED never disturbs a list: the new message joins its level and every listed slot stays USED. */
  lemma FreeSlotKeepsShape(lists: seq<seq<int>>, e: Ext, s: seq<Slot>, p: int, i: int, slot: Slot)
    requires ExtShape(lists, e, s) && ExtFits(e) && ListedUsed(lists, s)
    requires 0 <= p < PRIO_COUNT && 0 <= i < |s| && !Used(s[i]) && Used(slot) && slot.next == SLOT_NONE
    ensures e.prioTail[p] == SLOT_NONE || 0 <= e.prioTail[p] < |s|
    ensures ExtShape(lists[p := lists[p] + [i]], Hashed(Appended(e, p, i), slot.key, i),
                     TailLinked(s[i := slot], e.prioTail[p], i))
    ensures ListedUsed(lists[p := lists[p] + [i]], TailLinked(s[i := slot], e.prioTail[p], i))
  {
    assert Unlisted(lists, i);
    KeyedAppendKeepsShape(lists, e, s, p, i, slot);
    AppendKeepsListedUsed(lists, e, s, p, i, slot);
  }

  lemma AppendKeepsListedUsed(lists: seq<seq<int>>, e: Ext, s: seq<Slot>, p: int, i: int, slot: Slot)
    requires ExtFits(e) && |lists| == PRIO_COUNT && ListedUsed(lists, s)
    requires 0 <= p < PRIO_COUNT && 0 <= i < |s| && Used(slot)
    requires e.prioTail[p] == SLOT_NONE || 0 <= e.prioTail[p] < |s|
    ensures ListedUsed(lists[p := lists[p] + [i]], TailLinked(s[i := slot], e.prioTail[p], i))
  {
    var lists', s' := lists[p := lists[p] + [i]], TailLinked(s[i := slot], e.prioTail[p], i);
    forall q, k | 0 <= q < PRIO_COUNT && 0 <= k < |lists'[q]|
      ensures 0 <= lists'[q][k] < |s'| && Used(s'[lists'[q][k]])
    {
      if q == p && k == |lists[p]| {
        assert lists'[q][k] == i;
      } else {
        assert lists'[q][k] == lists[q][k];
      }
    }
  }

  /** A priority pop keeps every listed slot USED: the slot it clears leaves its list and is on no other. */
  lemma PriorityPopKeepsListedUsed(lists: seq<seq<int>>, e: Ext, s: seq<Slot>)
    requires ExtShape(lists, e, s) && ExtFits(e) && ListedUsed(lists, s) && Highest(e.prioHead) >= 0
    ensures var p := Highest(e.prioHead); var h := e.prioHead[p];
      0 <= h < |s| && ListedUsed(lists[p := lists[p][1..]], s[h := Cleared(s[h])])
  {
    PriorityPopServesTop(lists, e, s);
    var p := Highest(e.prioHead);
    var h := e.prioHead[p];
    var lists', s' := lists[p := lists[p][1..]], s[h := Cleared(s[h])];
    forall q, k | 0 <= q < PRIO_COUNT && 0 <= k < |lists'[q]|
      ensures 0 <= lists'[q][k] < |s'| && Used(s'[lists'[q][k]])
    {
      assert Ends(lists[p], e.prioHead[p], e.prioTail[p], e.prioCount[p]) && NoDup(lists[p]);
      if q == p {
        assert lists'[q][k] == lists[p][k + 1] != lists[p][0];
      } else {
        assert Disjoint(lists[q], lists[p]);
        assert lists'[q][k] == lists[q][k] != h;
      }
    }
  }

  /**
   * `pt_queue`.  The header fields are grouped in `ring`, the extension
   * tables in `ext`; `slots` is the slot array.
   */
  class MessageQueue {
    var ring: Ring
    var slots: array<Slot>
    var ext: Ext
    var pendingPrio: int
    var pendingSlot: int
    var isrFlags: IsrFlags
    /** Built for Open Transport: the FIFO reads wait for the READY flag. */
    const openTransport: bool

    ghost predicate Valid()
      reads this
    {
      RingOk(ring, slots.Length) && ExtFits(ext)
    }

    /**
     * What the priority operations rely on: an initialised queue of at most
     * 32 slots whose list ends, hash entries, slot links and pending pop are
     * all slot indices or `PT_SLOT_NONE`.
     */
    ghost predicate ExtOk()
      reads this, slots
    {
      && Valid() && ring.magicOk && ring.capacity <= MAX_SLOTS && ExtLinks(ext, slots[..])
      && 0 <= pendingPrio < PRIO_COUNT && LinkOk(pendingSlot, ring.capacity)
    }

    /** A queue inside a zero-filled context, before init. */
    constructor(openTransport: bool)
      ensures Valid() && !ring.magicOk && this.openTransport == openTransport
    {
      this.openTransport := openTransport;
      ring := Ring(false, 0, 0, 0, 0, false);
      slots := new Slot[0];
      ext := Ext([0, 0, 0, 0], [0, 0, 0, 0], [0, 0, 0, 0], seq(HASH_SIZE, _ => 0));
      pendingPrio, pendingSlot := 0, 0;
      isrFlags := NoIsrFlags;
    }

    // -------------------------------------------------------------------
    // Management
    // -------------------------------------------------------------------

    /** `pt_queue_init`; whether the slot allocation succeeds is the input `allocOk`. */
    method Init(cap: int, allocOk: bool) returns (r: int)
      requires Valid() && 0 <= cap < 0x1_0000
      modifies this
      ensures Valid()
      ensures r == (if !IsPowerOfTwo(cap) then ERR_INVALID_PARAM else if !allocOk then ERR_NO_MEMORY else PT_OK)
      ensures r != PT_OK ==> unchanged(this)
      ensures r == PT_OK ==> fresh(slots) && ring == Ring(true, cap, 0, 0, 0, false)
      ensures r == PT_OK && cap <= MAX_SLOTS ==>
        && ExtOk() && ext == EmptyExt && isrFlags == NoIsrFlags && pendingPrio == 0 && pendingSlot == SLOT_NONE
        && slots[..] == seq(cap, _ => ZeroSlot.(next := SLOT_NONE))
      ensures r == PT_OK && cap > MAX_SLOTS ==> ext == old(ext) && isrFlags == old(isrFlags) && slots[..] == seq(cap, _ => ZeroSlot)
    {
      if !IsPowerOfTwo(cap) {
        r := ERR_INVALID_PARAM;
      } else if !allocOk {
        r := ERR_NO_MEMORY;
      } else {
        PowerOfTwoNotNone(cap);
        slots := new Slot[cap](_ => ZeroSlot);
        ring := Ring(true, cap, 0, 0, 0, false);
        ExtInit();
        r := PT_OK;
      }
    }

    /** `pt_queue_ext_init`: with at most 32 slots, every list and bucket empty and every link cleared; otherwise nothing. */
    method ExtInit()
      requires Valid() && ring.magicOk
      modifies this, slots
      ensures ring == old(ring) && slots == old(slots) && Valid()
      ensures ring.capacity > MAX_SLOTS ==> unchanged(this) && unchanged(slots)
      ensures ring.capacity <= MAX_SLOTS ==>
        && ExtOk() && ext == EmptyExt
        && pendingPrio == 0 && pendingSlot == SLOT_NONE && isrFlags == NoIsrFlags
        && (forall i | 0 <= i < slots.Length :: slots[i] == old(slots[i]).(next := SLOT_NONE))
    {
      if ring.capacity <= MAX_SLOTS {
        ghost var s0 := slots[..];
        var i := 0;
        while i < ring.capacity
          invariant 0 <= i <= ring.capacity
          modifies slots
          invariant forall j | 0 <= j < slots.Length :: slots[j] == (if j < i then s0[j].(next := SLOT_NONE) else s0[j])
        {
          slots[i] := slots[i].(next := SLOT_NONE);
          i := i + 1;
        }
        ext := EmptyExt;
        pendingPrio, pendingSlot := 0, SLOT_NONE;
        isrFlags := NoIsrFlags;
      }
    }

    /** `pt_queue_free`: releases the slots and clears the header. */
    method Free()
      requires Valid()
      modifies this
      ensures Valid() && ring == Ring(false, 0, 0, 0, 0, false)
      ensures ext == old(ext) && isrFlags == old(isrFlags)
      ensures !old(ring.magicOk) ==> unchanged(this)
    {
      if ring.magicOk {
        ring := Ring(false, 0, 0, 0, 0, false);
      }
    }

    /** `pt_queue_reset`: empties the FIFO view; the priority tables and lists are left as they are. */
    method Reset()
      requires Valid()
      modifies this
      ensures Valid() && slots == old(slots) && ext == old(ext) && isrFlags == old(isrFlags)
      ensures pendingPrio == old(pendingPrio) && pendingSlot == old(pendingSlot)
      ensures ring == if old(ring.magicOk) then old(ring).(writeIdx := 0, readIdx := 0, count := 0, hasData := false) else old(ring)
      ensures old(ExtOk()) ==> ExtOk()
    {
      if ring.magicOk {
        ring := ring.(writeIdx := 0, readIdx := 0, count := 0, hasData := false);
      }
    }

    // -------------------------------------------------------------------
    // FIFO push, pop, peek, consume
    // -------------------------------------------------------------------

    /**
     * The common tail of `pt_queue_push` and the coalescing pushes: write
     * `slot` at `w`, link it after the tail of level `priority`, advance the
     * write index.  The pushes as written pass `w == write_idx`.
     */
    method Append(w: int, slot: Slot, priority: int)
      requires ExtOk() && ring.count < ring.capacity && 0 <= w < ring.capacity
      requires 0 <= priority < PRIO_COUNT && slot.next == SLOT_NONE
      modifies this, slots
      ensures ExtOk() && slots == old(slots) && isrFlags == old(isrFlags)
      ensures pendingPrio == old(pendingPrio) && pendingSlot == old(pendingSlot)
      ensures ring == RingPush(old(ring)) && ext == Appended(old(ext), priority, w)
      ensures slots[..] == TailLinked(old(slots[..])[w := slot], old(ext.prioTail[priority]), w)
    {
      var t := ext.prioTail[priority];
      ghost var s0 := slots[..];
      AppendKeepsLinks(ext, s0, priority, w, slot);
      ext := Appended(ext, priority, w);
      ring := RingPush(ring);
      slots[w] := slot;
      if t != SLOT_NONE {
        slots[t] := slots[t].(next := w);
      }
      assert slots[..] == TailLinked(s0[w := slot], t, w);
    }

    /** `pt_queue_push`: validate, then append a slot with no coalesce key to the list of `priority`. */
    method Push(data: bytes, priority: int, flags: bv8) returns (r: int)
      requires Valid() && (ring.magicOk ==> ExtOk())
      requires |data| < 0x1_0000 && 0 <= priority < PRIO_COUNT
      modifies this, slots
      ensures Valid() && (ring.magicOk ==> ExtOk()) && isrFlags == old(isrFlags) && slots == old(slots)
      ensures r == (if !old(ring.magicOk) || |data| > SLOT_SIZE then ERR_INVALID_PARAM
                    else if old(ring.count) >= old(ring.capacity) then ERR_BUFFER_FULL
                    else PT_OK)
      ensures r != PT_OK ==> unchanged(this) && unchanged(slots)
      ensures r == PT_OK ==>
        var w := old(ring.writeIdx);
        && ring == RingPush(old(ring)) && ext == Appended(old(ext), priority, w)
        && slots[..] == TailLinked(old(slots[..])[w := Slot(data, priority, SLOT_USED | flags, COALESCE_NONE, SLOT_NONE, old(slots[w].timestamp))],
                                   old(ext.prioTail[priority]), w)
    {
      if !ring.magicOk || |data| > SLOT_SIZE {
        r := ERR_INVALID_PARAM;
      } else if ring.count >= ring.capacity {
        r := ERR_BUFFER_FULL;
      } else {
        Append(ring.writeIdx, Slot(data, priority, SLOT_USED | flags, COALESCE_NONE, SLOT_NONE, slots[ring.writeIdx].timestamp), priority);
        r := PT_OK;
      }
    }

    /**
     * `pt_queue_push_isr` (`ready == false`) and `pt_queue_push_isr_ot`
     * (`ready == true`, READY set once the data is in): the checks of `Push`;
     * the slot at `write_idx` becomes level 0 and USED, and its key, link and
     * timestamp are left as they were.  No priority list is touched.
     */
    method PushIsr(data: bytes, ready: bool) returns (r: int)
      requires Valid() && |data| < 0x1_0000
      modifies this, slots
      ensures Valid() && slots == old(slots) && ext == old(ext) && isrFlags == old(isrFlags)
      ensures pendingPrio == old(pendingPrio) && pendingSlot == old(pendingSlot)
      ensures r == (if !old(ring.magicOk) || |data| > SLOT_SIZE then ERR_INVALID_PARAM
                    else if old(ring.count) >= old(ring.capacity) then ERR_BUFFER_FULL
                    else PT_OK)
      ensures r != PT_OK ==> unchanged(this) && unchanged(slots)
      ensures r == PT_OK ==>
        var w := old(ring.writeIdx);
        && ring == RingPush(old(ring))
        && slots[..] == old(slots[..])[w := old(slots[w]).(data := data, priority := 0,
                                                              flags := if ready then SLOT_USED | SLOT_READY else SLOT_USED)]
      ensures old(ExtOk()) ==> ExtOk()
    {
      if !ring.magicOk || |data| > SLOT_SIZE {
        r := ERR_INVALID_PARAM;
      } else if ring.count >= ring.capacity {
        r := ERR_BUFFER_FULL;
      } else {
        var w := ring.writeIdx;
        ring := RingPush(ring);
        slots[w] := slots[w].(data := data, priority := 0, flags := if ready then SLOT_USED | SLOT_READY else SLOT_USED);
        r := PT_OK;
      }
    }

    /**
     * `pt_queue_pop`: hand out the message at `read_idx` when the slot is
     * USED (and READY on Open Transport), then clear the slot and advance.
     */
    method Pop() returns (r: int, out: bytes)
      requires Valid()
      modifies this, slots
      ensures Valid() && slots == old(slots) && ext == old(ext) && isrFlags == old(isrFlags)
      ensures pendingPrio == old(pendingPrio) && pendingSlot == old(pendingSlot)
      ensures r == (if !old(ring.magicOk) then ERR_INVALID_PARAM
                    else if old(ring.count) == 0 then ERR_QUEUE_EMPTY
                    else if !Live(old(slots[ring.readIdx]), openTransport) then ERR_QUEUE_EMPTY
                    else PT_OK)
      ensures r != PT_OK ==> unchanged(this) && unchanged(slots) && out == []
      ensures r == PT_OK ==>
        var i := old(ring.readIdx);
        && out == old(slots[i].data) && ring == RingPop(old(ring))
        && slots[..] == old(slots[..])[i := Popped(old(slots[i]))]
      ensures old(ExtOk()) ==> ExtOk()
    {
      out := [];
      if !ring.magicOk {
        r := ERR_INVALID_PARAM;
      } else if ring.count == 0 || !Live(slots[ring.readIdx], openTransport) {
        r := ERR_QUEUE_EMPTY;
      } else {
        var i := ring.readIdx;
        out := slots[i].data;
        ring := RingPop(ring);
        slots[i] := Popped(slots[i]);
        r := PT_OK;
      }
    }

    /** `pt_queue_peek`: the message `Pop` would hand out, with nothing changed. */
    method Peek() returns (r: int, out: bytes)
      requires Valid()
      ensures r == (if !ring.magicOk then ERR_INVALID_PARAM
                    else if ring.count == 0 then ERR_QUEUE_EMPTY
                    else if !Live(slots[ring.readIdx], openTransport) then ERR_QUEUE_EMPTY
                    else PT_OK)
      ensures r == PT_OK ==> out == slots[ring.readIdx].data
      ensures r != PT_OK ==> out == []
    {
      out := [];
      if !ring.magicOk {
        r := ERR_INVALID_PARAM;
      } else if ring.count == 0 || !Live(slots[ring.readIdx], openTransport) {
        r := ERR_QUEUE_EMPTY;
      } else {
        out := slots[ring.readIdx].data;
        r := PT_OK;
      }
    }

    /** `pt_queue_consume`: drop the front message after a peek; unlike `Pop` it does not look at the slot's flags. */
    method Consume()
      requires Valid()
      modifies this, slots
      ensures Valid() && slots == old(slots) && ext == old(ext) && isrFlags == old(isrFlags)
      ensures pendingPrio == old(pendingPrio) && pendingSlot == old(pendingSlot)
      ensures !old(ring.magicOk) || old(ring.count) == 0 ==> unchanged(this) && unchanged(slots)
      ensures old(ring.magicOk) && old(ring.count) > 0 ==>
        var i := old(ring.readIdx);
        ring == RingPop(old(ring)) && slots[..] == old(slots[..])[i := Popped(old(slots[i]))]
      ensures old(ExtOk()) ==> ExtOk()
    {
      if ring.magicOk && ring.count > 0 {
        var i := ring.readIdx;
        ring := RingPop(ring);
        slots[i] := Popped(slots[i]);
      }
    }

    /**
     * `pt_queue_coalesce`: search the last `min(count, 4)` slots back from
     * `write_idx` for one that is USED and COALESCABLE, and replace its data.
     */
    method Coalesce(data: bytes) returns (r: int)
      requires Valid() && |data| < 0x1_0000
      modifies slots
      ensures r == 0 || r == -1
      ensures r == 0 <==>
        ring.magicOk && |data| <= SLOT_SIZE && Min(ring.count, 4) > 0
        && FirstCoalescable(old(slots[..]), ring.writeIdx, Min(ring.count, 4), 0).Some?
      ensures r == 0 ==>
        var i := FirstCoalescable(old(slots[..]), ring.writeIdx, Min(ring.count, 4), 0).value;
        slots[..] == old(slots[..])[i := old(slots[i]).(data := data)]
      ensures r != 0 ==> unchanged(slots)
    {
      if !ring.magicOk || |data| > SLOT_SIZE {
        return -1;
      }
      var n := if ring.count < 4 then ring.count else 4;
      if n == 0 {
        return -1;
      }
      var w := ring.writeIdx;
      ghost var s0 := slots[..];
      var i := 0;
      while i < n
        invariant 0 <= i <= n
        invariant FirstCoalescable(s0, w, n, 0) == FirstCoalescable(s0, w, n, i)
      {
        var idx := BackIndex(w, i, ring.capacity);
        if Used(slots[idx]) && Coalescable(slots[idx]) {
          slots[idx] := slots[idx].(data := data);
          return 0;
        }
        i := i + 1;
      }
      return -1;
    }

    // -------------------------------------------------------------------
    // Priority pops
    // -------------------------------------------------------------------

    /** The level search the priority pops share: from CRITICAL down, the first level whose head is set, or -1. */
    method TopLevel() returns (p: int)
      requires Valid()
      ensures p == Highest(ext.prioHead)
    {
      p := PRIO_CRITICAL;
      while p >= 0 && ext.prioHead[p] == SLOT_NONE
        invariant -1 <= p < PRIO_COUNT
        invariant forall q | p < q < PRIO_COUNT :: ext.prioHead[q] == SLOT_NONE
      {
        p := p - 1;
      }
      HighestIsTop(ext.prioHead, p);
    }

    /** The unlinking `pt_queue_pop_priority` and `pt_queue_pop_priority_commit` share: slot `h` leaves level `p` and is cleared. */
    method Unlink(p: int, h: int)
      requires ExtOk() && 0 <= p < PRIO_COUNT && 0 <= h < ring.capacity && ring.count > 0
      modifies this, slots
      ensures ExtOk() && slots == old(slots) && isrFlags == old(isrFlags)
      ensures pendingPrio == old(pendingPrio) && pendingSlot == old(pendingSlot)
      ensures ring == RingTake(old(ring))
      ensures ext == Unlinked(old(ext), p, h, old(slots[h].next), old(slots[h].key))
      ensures slots[..] == old(slots[..])[h := Cleared(old(slots[h]))]
    {
      var nx, key := slots[h].next, slots[h].key;
      UnlinkKeepsLinks(ext, slots[..], p, h, Cleared(slots[h]));
      ext := Unlinked(ext, p, h, nx, key);
      ring := RingTake(ring);
      slots[h] := Cleared(slots[h]);
    }

    /**
     * `pt_queue_pop_priority`: take the head of the highest non-empty level.
     * There is no magic check: an empty queue answers -1 whatever its state.
     */
    method PopPriority() returns (r: int, out: bytes)
      requires Valid() && (ring.count > 0 ==> ExtOk())
      modifies this, slots
      ensures Valid() && slots == old(slots) && isrFlags == old(isrFlags)
      ensures pendingPrio == old(pendingPrio) && pendingSlot == old(pendingSlot)
      ensures r == (if old(ring.count) == 0 || Highest(old(ext.prioHead)) < 0 then -1 else 0)
      ensures r != 0 ==> unchanged(this) && unchanged(slots) && out == []
      ensures r == 0 ==>
        var p := Highest(old(ext.prioHead));
        var h := old(ext.prioHead[p]);
        && 0 <= h < slots.Length && out == old(slots[h].data) && ring == RingTake(old(ring))
        && ext == Unlinked(old(ext), p, h, old(slots[h].next), old(slots[h].key))
        && slots[..] == old(slots[..])[h := Cleared(old(slots[h]))]
      ensures old(ExtOk()) ==> ExtOk()
    {
      out := [];
      if ring.count == 0 {
        return -1, out;
      }
      var p := TopLevel();
      if p < 0 {
        return -1, out;
      }
      var h := ext.prioHead[p];
      out := slots[h].data;
      Unlink(p, h);
      r := 0;
    }

    /**
     * `pt_queue_pop_priority_direct`: name the head `PopPriority` would take
     * and remember it for the commit, changing nothing else.
     */
    method PopPriorityDirect() returns (r: int, out: bytes)
      requires Valid() && (ring.count > 0 ==> ExtOk())
      modifies this
      ensures ring == old(ring) && slots == old(slots) && ext == old(ext) && isrFlags == old(isrFlags)
      ensures Valid() && (old(ExtOk()) ==> ExtOk())
      ensures r == (if ring.count == 0 || Highest(ext.prioHead) < 0 then -1 else 0)
      ensures r != 0 ==> unchanged(this) && out == []
      ensures r == 0 ==>
        && pendingPrio == Highest(ext.prioHead) && pendingSlot == ext.prioHead[pendingPrio]
        && 0 <= pendingSlot < slots.Length && out == slots[pendingSlot].data
    {
      out := [];
      if ring.count == 0 {
        return -1, out;
      }
      var p := TopLevel();
      if p < 0 {
        return -1, out;
      }
      var h := ext.prioHead[p];
      out := slots[h].data;
      pendingPrio, pendingSlot := p, h;
      r := 0;
    }

    /**
     * `pt_queue_pop_priority_commit`: unlink and clear the slot the last
     * direct pop named.  It checks nothing itself; the caller must commit
     * only right after a successful direct pop.
     */
    method Commit()
      requires ExtOk() && pendingSlot != SLOT_NONE && ring.count > 0
      modifies this, slots
      ensures ExtOk() && slots == old(slots) && isrFlags == old(isrFlags)
      ensures pendingPrio == old(pendingPrio) && pendingSlot == old(pendingSlot)
      ensures ring == RingTake(old(ring))
      ensures ext == Unlinked(old(ext), pendingPrio, pendingSlot, old(slots[pendingSlot].next), old(slots[pendingSlot].key))
      ensures slots[..] == old(slots[..])[pendingSlot := Cleared(old(slots[pendingSlot]))]
    {
      Unlink(pendingPrio, pendingSlot);
    }

    // -------------------------------------------------------------------
    // Coalescing push and backpressure
    // -------------------------------------------------------------------

    /**
     * `pt_queue_push_coalesce` (`isr == false`; the tick count is `now`) and
     * `pt_queue_push_coalesce_isr` (`isr == true`; no clock, and the outcome
     * is noted in `isrFlags` for the main loop).  A message whose key the
     * hash already holds replaces that slot's data in place; any other goes
     * into a new slot at `write_idx` on the tail of its level and, when keyed,
     * into the hash.  There is no magic check.
     */
    method PushCoalesce(data: bytes, priority: int, key: bv16, now: int, isr: bool) returns (r: int)
      requires ExtOk() && |data| < 0x1_0000 && 0 <= priority < PRIO_COUNT
      modifies this, slots
      ensures ExtOk() && slots == old(slots)
      ensures pendingPrio == old(pendingPrio) && pendingSlot == old(pendingSlot)
      ensures r == 0 || r == -1
      ensures |data| == 0 || |data| > SLOT_SIZE ==> r == -1 && unchanged(this) && unchanged(slots)
      ensures 0 < |data| <= SLOT_SIZE && HashHit(old(ext), old(slots[..]), key).Some? ==>
        var i := HashHit(old(ext), old(slots[..]), key).value;
        && r == 0 && ring == old(ring) && ext == old(ext)
        && slots[..] == old(slots[..])[i := old(slots[i]).(data := data, timestamp := if isr then old(slots[i].timestamp) else now)]
        && isrFlags == if isr then old(isrFlags).(coalesceHit := true) else old(isrFlags)
      ensures 0 < |data| <= SLOT_SIZE && HashHit(old(ext), old(slots[..]), key).None? ==>
        var collided := key != COALESCE_NONE && old(ext.coalesceHash[Bucket(key)]) != SLOT_NONE;
        var flags := if isr && collided then old(isrFlags).(hashCollision := true) else old(isrFlags);
        if old(ring.count) >= old(ring.capacity) then
          && r == -1 && ring == old(ring) && ext == old(ext) && unchanged(slots)
          && isrFlags == if isr then flags.(queueFull := true) else flags
        else
          var w := old(ring.writeIdx);
          && r == 0 && isrFlags == flags && ring == RingPush(old(ring))
          && ext == Hashed(Appended(old(ext), priority, w), key, w)
          && slots[..] == TailLinked(old(slots[..])[w := Slot(data, priority, SLOT_USED, key, SLOT_NONE, if isr then 0 else now)],
                                     old(ext.prioTail[priority]), w)
    {
      var hit := if 0 < |data| <= SLOT_SIZE then HashHit(ext, slots[..], key) else None;
      if |data| == 0 || |data| > SLOT_SIZE {
        r := -1;
      } else if hit.Some? {
        Replace(hit.value, data, now, isr);
        r := 0;
      } else {
        r := InsertAtWrite(Slot(data, priority, SLOT_USED, key, SLOT_NONE, if isr then 0 else now), isr);
      }
    }

    /** The miss path of `PushCoalesce`: note a collision, then fail when full or take the slot at `write_idx`. */
    method InsertAtWrite(slot: Slot, isr: bool) returns (r: int)
      requires ExtOk() && 0 <= slot.priority < PRIO_COUNT && slot.next == SLOT_NONE
      modifies this, slots
      ensures ExtOk() && slots == old(slots)
      ensures pendingPrio == old(pendingPrio) && pendingSlot == old(pendingSlot)
      ensures var collided := slot.key != COALESCE_NONE && old(ext.coalesceHash[Bucket(slot.key)]) != SLOT_NONE;
        var flags := if isr && collided then old(isrFlags).(hashCollision := true) else old(isrFlags);
        if old(ring.count) >= old(ring.capacity) then
          && r == -1 && ring == old(ring) && ext == old(ext) && unchanged(slots)
          && isrFlags == if isr then flags.(queueFull := true) else flags
        else
          var w := old(ring.writeIdx);
          && r == 0 && isrFlags == flags && ring == RingPush(old(ring))
          && ext == Hashed(Appended(old(ext), slot.priority, w), slot.key, w)
          && slots[..] == TailLinked(old(slots[..])[w := slot], old(ext.prioTail[slot.priority]), w)
    {
      if isr && slot.key != COALESCE_NONE && ext.coalesceHash[Bucket(slot.key)] != SLOT_NONE {
        isrFlags := isrFlags.(hashCollision := true);
      }
      if ring.count >= ring.capacity {
        if isr {
          isrFlags := isrFlags.(queueFull := true);
        }
        r := -1;
      } else {
        AppendKeyed(ring.writeIdx, slot, slot.priority);
        r := 0;
      }
    }

    /**
     * A coalesce hit: slot `i` takes the new data and, outside an ISR, the
     * tick count `now`; in an ISR the hit is noted for the main loop instead.
     */
    method Replace(i: int, data: bytes, now: int, isr: bool)
      requires ExtOk() && 0 <= i < slots.Length
      modifies this, slots
      ensures ExtOk() && slots == old(slots) && ring == old(ring) && ext == old(ext)
      ensures pendingPrio == old(pendingPrio) && pendingSlot == old(pendingSlot)
      ensures slots[..] == old(slots[..])[i := old(slots[i]).(data := data, timestamp := if isr then old(slots[i].timestamp) else now)]
      ensures isrFlags == if isr then old(isrFlags).(coalesceHit := true) else old(isrFlags)
    {
      slots[i] := slots[i].(data := data, timestamp := if isr then slots[i].timestamp else now);
      if isr {
        isrFlags := isrFlags.(coalesceHit := true);
      }
    }

    /** A new slot from a coalescing push: appended at `w` as by `Append`, then entered in the hash under its key. */
    method AppendKeyed(w: int, slot: Slot, priority: int)
      requires ExtOk() && ring.count < ring.capacity && 0 <= w < ring.capacity
      requires 0 <= priority < PRIO_COUNT && slot.next == SLOT_NONE
      modifies this, slots
      ensures ExtOk() && slots == old(slots) && isrFlags == old(isrFlags)
      ensures pendingPrio == old(pendingPrio) && pendingSlot == old(pendingSlot)
      ensures ring == RingPush(old(ring)) && ext == Hashed(Appended(old(ext), priority, w), slot.key, w)
      ensures slots[..] == TailLinked(old(slots[..])[w := slot], old(ext.prioTail[priority]), w)
    {
      Append(w, slot, priority);
      ext := Hashed(ext, slot.key, w);
    }

    /** The corrected slot search: none when the queue is full, else the first slot from `write_idx` round the ring that is not USED. */
    method FindFree() returns (f: Option<int>)
      requires Valid() && ring.magicOk
      ensures f == if ring.count >= ring.capacity then None else FreeFrom(slots[..], ring.writeIdx, 0)
    {
      if ring.count >= ring.capacity {
        return None;
      }
      var k := 0;
      while k < ring.capacity
        invariant 0 <= k <= ring.capacity
        invariant FreeFrom(slots[..], ring.writeIdx, 0) == FreeFrom(slots[..], ring.writeIdx, k)
      {
        var i := Pos(ring.writeIdx, k, ring.capacity);
        if !Used(slots[i]) {
          return Some(i);
        }
        k := k + 1;
      }
      return None;
    }

    /**
     * The coalescing push with the slot choice its own comment describes: a
     * new message goes into the first slot from `write_idx` round the ring
     * that is not USED, and the push fails when there is none.  Everything
     * else (the hit, the flags, the full check, the write index advancing by
     * one) is as in `PushCoalesce`.
     */
    method PushCoalesceFree(data: bytes, priority: int, key: bv16, now: int, isr: bool) returns (r: int)
      requires ExtOk() && |data| < 0x1_0000 && 0 <= priority < PRIO_COUNT
      modifies this, slots
      ensures ExtOk() && slots == old(slots)
      ensures pendingPrio == old(pendingPrio) && pendingSlot == old(pendingSlot)
      ensures r == 0 || r == -1
      ensures |data| == 0 || |data| > SLOT_SIZE ==> r == -1 && unchanged(this) && unchanged(slots)
      ensures 0 < |data| <= SLOT_SIZE && HashHit(old(ext), old(slots[..]), key).Some? ==>
        var i := HashHit(old(ext), old(slots[..]), key).value;
        && r == 0 && ring == old(ring) && ext == old(ext)
        && slots[..] == old(slots[..])[i := old(slots[i]).(data := data, timestamp := if isr then old(slots[i].timestamp) else now)]
        && isrFlags == if isr then old(isrFlags).(coalesceHit := true) else old(isrFlags)
      ensures 0 < |data| <= SLOT_SIZE && HashHit(old(ext), old(slots[..]), key).None? ==>
        var collided := key != COALESCE_NONE && old(ext.coalesceHash[Bucket(key)]) != SLOT_NONE;
        var flags := if isr && collided then old(isrFlags).(hashCollision := true) else old(isrFlags);
        var f := if old(ring.count) >= old(ring.capacity) then None else FreeFrom(old(slots[..]), old(ring.writeIdx), 0);
        if f.None? then
          && r == -1 && ring == old(ring) && ext == old(ext) && unchanged(slots)
          && isrFlags == if isr then flags.(queueFull := true) else flags
        else
          && r == 0 && isrFlags == flags && ring == RingPush(old(ring))
          && ext == Hashed(Appended(old(ext), priority, f.value), key, f.value)
          && slots[..] == TailLinked(old(slots[..])[f.value := Slot(data, priority, SLOT_USED, key, SLOT_NONE, if isr then 0 else now)],
                                     old(ext.prioTail[priority]), f.value)
    {
      var hit := if 0 < |data| <= SLOT_SIZE then HashHit(ext, slots[..], key) else None;
      if |data| == 0 || |data| > SLOT_SIZE {
        r := -1;
      } else if hit.Some? {
        Replace(hit.value, data, now, isr);
        r := 0;
      } else {
        r := InsertFree(Slot(data, priority, SLOT_USED, key, SLOT_NONE, if isr then 0 else now), isr);
      }
    }

    /** The miss path of `PushCoalesceFree`: note a collision, then take a free slot or fail. */
    method InsertFree(slot: Slot, isr: bool) returns (r: int)
      requires ExtOk() && 0 <= slot.priority < PRIO_COUNT && slot.next == SLOT_NONE
      modifies this, slots
      ensures ExtOk() && slots == old(slots)
      ensures pendingPrio == old(pendingPrio) && pendingSlot == old(pendingSlot)
      ensures var collided := slot.key != COALESCE_NONE && old(ext.coalesceHash[Bucket(slot.key)]) != SLOT_NONE;
        var flags := if isr && collided then old(isrFlags).(hashCollision := true) else old(isrFlags);
        var f := if old(ring.count) >= old(ring.capacity) then None else FreeFrom(old(slots[..]), old(ring.writeIdx), 0);
        if f.None? then
          && r == -1 && ring == old(ring) && ext == old(ext) && unchanged(slots)
          && isrFlags == if isr then flags.(queueFull := true) else flags
        else
          && r == 0 && isrFlags == flags && ring == RingPush(old(ring))
          && ext == Hashed(Appended(old(ext), slot.priority, f.value), slot.key, f.value)
          && slots[..] == TailLinked(old(slots[..])[f.value := slot], old(ext.prioTail[slot.priority]), f.value)
    {
      if isr && slot.key != COALESCE_NONE && ext.coalesceHash[Bucket(slot.key)] != SLOT_NONE {
        isrFlags := isrFlags.(hashCollision := true);
      }
      var f := FindFree();
      if f.None? {
        if isr {
          isrFlags := isrFlags.(queueFull := true);
        }
        r := -1;
      } else {
        AppendKeyed(f.value, slot, slot.priority);
        r := 0;
      }
    }

    /**
     * `pt_queue_try_push`: drop the message when the backpressure policy
     * says so, otherwise push it with `pt_queue_push_coalesce` as written, so
     * a new message lands at `write_idx` whether or not that slot is still
     * linked; `level` is what ends up in `*pressure_out`.
     */
    method TryPush(data: bytes, priority: int, key: bv16, now: int) returns (r: int, level: Backpressure)
      requires ExtOk() && |data| < 0x1_0000 && 0 <= priority < PRIO_COUNT
      modifies this, slots
      ensures ExtOk() && slots == old(slots) && pendingPrio == old(pendingPrio) && pendingSlot == old(pendingSlot)
      ensures r == 0 || r == -1
      ensures Drops(BackpressureOf(old(ring)), priority) ==>
        r == -1 && level == BackpressureOf(old(ring)) && unchanged(this) && unchanged(slots)
      ensures !Drops(BackpressureOf(old(ring)), priority) ==> level == BackpressureOf(ring)
      ensures !Drops(BackpressureOf(old(ring)), priority) && (|data| == 0 || |data| > SLOT_SIZE) ==>
        r == -1 && unchanged(this) && unchanged(slots)
      ensures !Drops(BackpressureOf(old(ring)), priority) && 0 < |data| <= SLOT_SIZE
              && HashHit(old(ext), old(slots[..]), key).Some? ==>
        var i := HashHit(old(ext), old(slots[..]), key).value;
        && r == 0 && ring == old(ring) && ext == old(ext) && isrFlags == old(isrFlags)
        && slots[..] == old(slots[..])[i := old(slots[i]).(data := data, timestamp := now)]
      ensures !Drops(BackpressureOf(old(ring)), priority) && 0 < |data| <= SLOT_SIZE
              && HashHit(old(ext), old(slots[..]), key).None? ==>
        && isrFlags == old(isrFlags)
        && if old(ring.count) >= old(ring.capacity) then
          r == -1 && ring == old(ring) && ext == old(ext) && unchanged(slots)
        else
          var w := old(ring.writeIdx);
          && r == 0 && ring == RingPush(old(ring))
          && ext == Hashed(Appended(old(ext), priority, w), key, w)
          && slots[..] == TailLinked(old(slots[..])[w := Slot(data, priority, SLOT_USED, key, SLOT_NONE, now)],
                                     old(ext.prioTail[priority]), w)
    {
      level := BackpressureOf(ring);
      if Drops(level, priority) {
        return -1, level;
      }
      r := PushCoalesce(data, priority, key, now, false);
      level := BackpressureOf(ring);
    }

    /**
     * `pt_queue_try_push` as its callers intend it: the same backpressure
     * policy, then the coalescing push with the corrected slot choice of
     * `PushCoalesceFree`.
     */
    method TryPushFree(data: bytes, priority: int, key: bv16, now: int) returns (r: int, level: Backpressure)
      requires ExtOk() && |data| < 0x1_0000 && 0 <= priority < PRIO_COUNT
      modifies this, slots
      ensures ExtOk() && slots == old(slots) && pendingPrio == old(pendingPrio) && pendingSlot == old(pendingSlot)
      ensures r == 0 || r == -1
      ensures Drops(BackpressureOf(old(ring)), priority) ==>
        r == -1 && level == BackpressureOf(old(ring)) && unchanged(this) && unchanged(slots)
      ensures !Drops(BackpressureOf(old(ring)), priority) ==> level == BackpressureOf(ring)
      ensures !Drops(BackpressureOf(old(ring)), priority) && (|data| == 0 || |data| > SLOT_SIZE) ==>
        r == -1 && unchanged(this) && unchanged(slots)
      ensures !Drops(BackpressureOf(old(ring)), priority) && 0 < |data| <= SLOT_SIZE
              && HashHit(old(ext), old(slots[..]), key).Some? ==>
        var i := HashHit(old(ext), old(slots[..]), key).value;
        && r == 0 && ring == old(ring) && ext == old(ext) && isrFlags == old(isrFlags)
        && slots[..] == old(slots[..])[i := old(slots[i]).(data := data, timestamp := now)]
      ensures !Drops(BackpressureOf(old(ring)), priority) && 0 < |data| <= SLOT_SIZE
              && HashHit(old(ext), old(slots[..]), key).None? ==>
        var f := if old(ring.count) >= old(ring.capacity) then None else FreeFrom(old(slots[..]), old(ring.writeIdx), 0);
        && isrFlags == old(isrFlags)
        && if f.None? then
          r == -1 && ring == old(ring) && ext == old(ext) && unchanged(slots)
        else
          && r == 0 && ring == RingPush(old(ring))
          && ext == Hashed(Appended(old(ext), priority, f.value), key, f.value)
          && slots[..] == TailLinked(old(slots[..])[f.value := Slot(data, priority, SLOT_USED, key, SLOT_NONE, now)],
                                     old(ext.prioTail[priority]), f.value)
    {
      level := BackpressureOf(ring);
      if Drops(level, priority) {
        return -1, level;
      }
      r := PushCoalesceFree(data, priority, key, now, false);
      level := BackpressureOf(ring);
    }

    /**
     * `pt_check_queue_isr_flags`: with a log to report to (`hasLog`), hand
     * the flags the ISR pushes set to the main loop and clear them; without
     * one, do nothing.
     */
    method CheckIsrFlags(hasLog: bool) returns (reported: IsrFlags)
      requires Valid()
      modifies this
      ensures Valid() && ring == old(ring) && slots == old(slots) && ext == old(ext)
      ensures pendingPrio == old(pendingPrio) && pendingSlot == old(pendingSlot)
      ensures reported == if hasLog then old(isrFlags) else NoIsrFlags
      ensures isrFlags == if hasLog then NoIsrFlags else old(isrFlags)
      ensures old(ExtOk()) ==> ExtOk()
    {
      reported := NoIsrFlags;
      if !hasLog {
        return;
      }
      reported := isrFlags;
      if isrFlags.queueFull {
        isrFlags := isrFlags.(queueFull := false);
      }
      if isrFlags.coalesceHit {
        isrFlags := isrFlags.(coalesceHit := false);
      }
      if isrFlags.hashCollision {
        isrFlags := isrFlags.(hashCollision := false);
      }
    }
  }
}
