/** The client's receive window: which counters are new, and which one a tag names. */
module RecvWindow {
  import opened Wrappers
  import opened Bitset256
  import opened Crypto

  const RECV_REORDER_WINDOW: nat := 256
  const RECV_FUTURE_SEARCH_WINDOW: nat := 4096

  /** The window as a value; `bits` holds the offsets below `highest` that were marked. */
  datatype Window = Window(highest: int, bits: set<nat>) {
    predicate IsNew(counter: nat) {
      if highest < 0 || counter > highest then true
      else if highest - counter >= RECV_REORDER_WINDOW then false
      else highest - counter !in bits
    }

    function Mark(counter: nat): Window {
      if highest < 0 || counter > highest then
        var shift := if highest < 0 then RECV_REORDER_WINDOW else counter - highest;
        Window(counter, (if shift >= RECV_REORDER_WINDOW then {} else Above(bits, shift)) + {0})
      else if highest - counter < RECV_REORDER_WINDOW then
        Window(highest, bits + {highest - counter})
      else this
    }

    function SearchStart(): nat {
      if highest < RECV_REORDER_WINDOW then 0 else highest - (RECV_REORDER_WINDOW - 1)
    }

    function SearchEnd(): nat {
      if highest < 0 then RECV_FUTURE_SEARCH_WINDOW else highest + RECV_FUTURE_SEARCH_WINDOW + 1
    }

    /** The first new counter in [start, end) whose tag in time window `tw` is `tag`. */
    function FirstMatch<T(==)>(tag: T, tagOf: (nat, nat) -> T, tw: nat, start: nat, end: nat): Option<nat>
      decreases end - start
    {
      if start >= end then None
      else if IsNew(start) && tagOf(start, tw) == tag then Some(start)
      else FirstMatch(tag, tagOf, tw, start + 1, end)
    }

    function Find<T(==)>(tag: T, tagOf: (nat, nat) -> T, now: nat): Option<nat> {
      var a := FirstMatch(tag, tagOf, now, SearchStart(), SearchEnd());
      if a.Some? then a else
      var b := FirstMatch(tag, tagOf, PrevWindow(now), SearchStart(), SearchEnd());
      if b.Some? then b else
      FirstMatch(tag, tagOf, NextWindow(now), SearchStart(), SearchEnd())
    }
  }

  const EmptyWindow: Window := Window(-1, {})

  function Above(bits: set<nat>, shift: nat): set<nat> {
    set i | i in bits && i + shift < 256 :: i + shift
  }

  // ---- The window refines a set of marked counters ---------------------------

  function MarkAll(counters: seq<nat>): Window {
    if counters == [] then EmptyWindow
    else MarkAll(counters[..|counters| - 1]).Mark(counters[|counters| - 1])
  }

  function Highest(counters: seq<nat>): int {
    if counters == [] then -1
    else
      var rest := Highest(counters[..|counters| - 1]);
      var last := counters[|counters| - 1];
      if last > rest then last else rest
  }

  lemma AboveMoves(bits: set<nat>, shift: nat, d: nat)
    ensures d in Above(bits, shift) <==> shift <= d < 256 && d - shift in bits
  {
    if shift <= d < 256 && d - shift in bits {
      assert (d - shift) + shift in Above(bits, shift);
    }
  }

  /** Bit d stands for "highest - d was marked", after any sequence of marks. */
  lemma {:induction false} BitsNameMarkedCounters(counters: seq<nat>)
    ensures MarkAll(counters).highest == Highest(counters) >= -1
    ensures forall c :: c in counters ==> c <= Highest(counters)
    ensures forall d :: d in MarkAll(counters).bits <==>
              0 <= d < 256 && d <= Highest(counters) && Highest(counters) - d in counters
  {
    if counters != [] {
      var front, last := counters[..|counters| - 1], counters[|counters| - 1];
      BitsNameMarkedCounters(front);
      assert counters == front + [last];
      var w := MarkAll(front);
      hide MarkAll, Above;
      forall d: nat
        ensures d in w.Mark(last).bits <==>
                0 <= d < 256 && d <= Highest(counters) && Highest(counters) - d in counters
      {
        if last > w.highest >= 0 {
          AboveMoves(w.bits, last - w.highest, d);
        }
      }
    }
  }

  /** `is_new` answers from 256 bits what the whole history of marks would answer. */
  lemma RefinesSet(counters: seq<nat>, c: nat)
    ensures MarkAll(counters).IsNew(c) <==>
            c > Highest(counters) || (Highest(counters) - c < 256 && c !in counters)
  {
    BitsNameMarkedCounters(counters);
    if counters != [] && c <= Highest(counters) && Highest(counters) - c < 256 {
      var d := Highest(counters) - c;
      assert d in MarkAll(counters).bits <==> c in counters;
    }
  }

  // ---- Marking, on any window ------------------------------------------------

  /** Marking a counter retires it, and never makes another counter new again. */
  lemma MarkRetires(w: Window, counter: nat, c: nat)
    ensures !w.Mark(counter).IsNew(counter)
    ensures w.Mark(counter).IsNew(c) ==> w.IsNew(c)
  {
    if w.highest >= 0 && counter > w.highest && c <= w.highest && w.highest - c in w.bits {
      var shift := counter - w.highest;
      if counter - c < 256 {
        assert (w.highest - c) + shift in Above(w.bits, shift);
      }
    }
  }

  // ---- The counter search ----------------------------------------------------

  lemma {:induction false} FirstMatchIsFirst<T>(w: Window, tag: T, tagOf: (nat, nat) -> T, tw: nat, start: nat,
                                                end: nat)
    ensures var r := w.FirstMatch(tag, tagOf, tw, start, end);
            && (r.Some? ==> start <= r.value < end && w.IsNew(r.value) && tagOf(r.value, tw) == tag)
            && (forall c: nat :: start <= c < (if r.Some? then r.value else end) ==>
                  !(w.IsNew(c) && tagOf(c, tw) == tag))
    decreases end - start
  {
    if start < end && !(w.IsNew(start) && tagOf(start, tw) == tag) {
      FirstMatchIsFirst(w, tag, tagOf, tw, start + 1, end);
    }
  }

  /** Whatever the tag function: a found counter is unmarked, in range and carries the tag
      in a neighbouring time window, and nothing is found only when there is no such counter. */
  lemma FindIsExact<T(!new)>(w: Window, tag: T, tagOf: (nat, nat) -> T, now: nat)
    ensures var r := w.Find(tag, tagOf, now);
            && (r.Some? ==> Candidate(w, tag, tagOf, now, r.value))
            && (r.None? ==> forall c: nat :: !Candidate(w, tag, tagOf, now, c))
  {
    FirstMatchIsFirst(w, tag, tagOf, now, w.SearchStart(), w.SearchEnd());
    FirstMatchIsFirst(w, tag, tagOf, PrevWindow(now), w.SearchStart(), w.SearchEnd());
    FirstMatchIsFirst(w, tag, tagOf, NextWindow(now), w.SearchStart(), w.SearchEnd());
  }

  /** What the search is for: an unmarked counter at most 255 behind and 4096 ahead of the
      highest (0 to 4095 when nothing was received) whose tag in a near window is `tag`. */
  ghost predicate Candidate<T>(w: Window, tag: T, tagOf: (nat, nat) -> T, now: nat, c: nat) {
    && w.IsNew(c)
    && (if w.highest < 0 then c < 4096 else w.highest - 255 <= c <= w.highest + 4096)
    && (tagOf(c, now) == tag || tagOf(c, PrevWindow(now)) == tag || tagOf(c, NextWindow(now)) == tag)
  }

  /** No other counter in the search range has, in a near window, the tag of counter `c` at `t`. */
  ghost predicate Unambiguous<T(!new)>(w: Window, tagOf: (nat, nat) -> T, now: nat, c: nat, t: nat) {
    forall c': nat, t': nat ::
      w.SearchStart() <= c' < w.SearchEnd() && NearWindow(now, t') && tagOf(c', t') == tagOf(c, t) ==> c' == c
  }

  /** Every genuine unmarked counter in range is found, unless its tag collides in the range. */
  lemma FindsGenuine<T(!new)>(w: Window, tagOf: (nat, nat) -> T, now: nat, c: nat, t: nat)
    requires Unambiguous(w, tagOf, now, c, t) && NearWindow(now, t)
    requires w.IsNew(c) && (if w.highest < 0 then c < 4096 else c <= w.highest + 4096)
    ensures w.Find(tagOf(c, t), tagOf, now) == Some(c)
  {
    FindIsExact(w, tagOf(c, t), tagOf, now);
    assert Candidate(w, tagOf(c, t), tagOf, now, c);
    var r := w.Find(tagOf(c, t), tagOf, now);
    assert w.SearchStart() <= r.value < w.SearchEnd();
  }

  // ---- The window in place ---------------------------------------------------

  class RecvWindow {
    var highest: int
    var bitmap: Bitset256

    ghost function View(): Window
      reads this
    {
      Window(highest, bitmap.Ones())
    }

    constructor ()
      ensures View() == EmptyWindow
    {
      highest := -1;
      bitmap := Empty();
      EmptyHasNoOnes();
    }

    method Reset()
      modifies this
      ensures View() == EmptyWindow
    {
      highest := -1;
      bitmap := Empty();
      EmptyHasNoOnes();
    }

    predicate IsNew(counter: nat)
      reads this
      ensures IsNew(counter) == View().IsNew(counter)
    {
      if highest < 0 then true
      else if counter > highest then true
      else
        var diff := highest - counter;
        if diff >= RECV_REORDER_WINDOW then false else !bitmap.GetBit(diff)
    }

    method Mark(counter: nat)
      modifies this
      ensures View() == old(View()).Mark(counter)
    {
      if highest < 0 || counter > highest {
        var shift := if highest < 0 then RECV_REORDER_WINDOW else counter - highest;
        if shift >= RECV_REORDER_WINDOW {
          EmptyHasNoOnes();
          SetBitAddsOne(Empty(), 0);
          bitmap := Empty().SetBit(0);
        } else {
          ShiftMovesOnes(bitmap, shift);
          SetBitAddsOne(bitmap.Shift(shift), 0);
          bitmap := bitmap.Shift(shift).SetBit(0);
        }
        highest := counter;
      } else {
        var diff := highest - counter;
        if diff < RECV_REORDER_WINDOW {
          SetBitAddsOne(bitmap, diff);
          bitmap := bitmap.SetBit(diff);
        }
      }
    }

    method FindCounter<T(==)>(tag: T, tagOf: (nat, nat) -> T, now: nat) returns (r: Option<nat>)
      ensures r == View().Find(tag, tagOf, now)
    {
      var start := if highest < RECV_REORDER_WINDOW then 0 else highest - (RECV_REORDER_WINDOW - 1);
      var end := if highest < 0 then RECV_FUTURE_SEARCH_WINDOW
                 else Max(RECV_FUTURE_SEARCH_WINDOW, highest + RECV_FUTURE_SEARCH_WINDOW + 1);
      var windows := [now, PrevWindow(now), NextWindow(now)];
      for i := 0 to 3
        invariant i > 0 ==> View().FirstMatch(tag, tagOf, now, start, end).None?
        invariant i > 1 ==> View().FirstMatch(tag, tagOf, PrevWindow(now), start, end).None?
        invariant i > 2 ==> View().FirstMatch(tag, tagOf, NextWindow(now), start, end).None?
      {
        var tw := windows[i];
        for counter := start to end
          invariant View().FirstMatch(tag, tagOf, tw, start, end) == View().FirstMatch(tag, tagOf, tw, counter, end)
        {
          if IsNew(counter) && tagOf(counter, tw) == tag {
            return Some(counter);
          }
        }
      }
      return None;
    }
  }

  function Max(a: int, b: int): int { if a > b then a else b }
}
