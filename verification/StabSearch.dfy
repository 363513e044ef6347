/** stab_binsearch of lab4/kern/kdebug.c: a binary search over the entries of one type in a mixed
    table. */
module StabSearch {
  import opened Words

  datatype Stab = Stab(kind: nat, value: Addr)

  /** The loop's variables; left and right are *region_left and *region_right. */
  datatype State = State(l: int, r: int, left: int, right: int, addr: Addr, matched: bool)

  /** The bounds stay inside the table. */
  predicate InTable(stabs: seq<Stab>, s: State) { 0 <= s.l <= s.r + 1 && s.r < |stabs| }

  /** The last entry of this kind in [l, m], or l - 1. */
  function LastOf(stabs: seq<Stab>, kind: nat, l: int, m: int): (k: int)
    requires 0 <= l && m < |stabs| && l - 1 <= m
    ensures l - 1 <= k <= m && (k >= l ==> stabs[k].kind == kind)
    ensures forall i :: k < i <= m ==> stabs[i].kind != kind
    decreases m - l
  {
    if m < l || stabs[m].kind == kind then m else LastOf(stabs, kind, l, m - 1)
  }

  /** addr++ on a 32-bit word. */
  function Next(a: Addr): Addr { (a + 1) % 0x1_0000_0000 }

  /** One turn of the search loop. */
  function Turn(stabs: seq<Stab>, kind: nat, s: State): (s': State)
    requires InTable(stabs, s) && s.l <= s.r
    ensures InTable(stabs, s') && Measure(stabs, kind, s') < Measure(stabs, kind, s)
  {
    var trueM := (s.l + s.r) / 2;
    var m := LastOf(stabs, kind, s.l, trueM);
    if m < s.l then s.(l := trueM + 1)
    else if stabs[m].value < s.addr then s.(l := trueM + 1, left := m, matched := true)
    else if stabs[m].value > s.addr then s.(r := m - 1, right := m - 1, matched := true)
    else s.(l := m, left := m, addr := Next(s.addr), matched := true)
  }

  /** An exact match may leave both bounds alone, but then it moves addr past the entry at l: twice
      the width, plus one while that entry still matches, always shrinks. */
  function Measure(stabs: seq<Stab>, kind: nat, s: State): nat
    requires InTable(stabs, s)
  {
    2 * (s.r - s.l + 1) + if s.l <= s.r && stabs[s.l].kind == kind && stabs[s.l].value == s.addr then 1 else 0
  }

  function Search(stabs: seq<Stab>, kind: nat, s: State): (s': State)
    requires InTable(stabs, s)
    ensures InTable(stabs, s') && s'.l == s'.r + 1
    decreases Measure(stabs, kind, s)
  {
    if s.l > s.r then s else Search(stabs, kind, Turn(stabs, kind, s))
  }

  /** *region_left and *region_right on return. */
  function Result(stabs: seq<Stab>, kind: nat, left: int, right: int, addr: Addr): (lr: (int, int))
    requires 0 <= left <= right + 1 && right < |stabs|
  {
    var s := Search(stabs, kind, State(left, right, left, right, addr, false));
    if !s.matched then (s.left, s.left - 1)
    else if 0 <= s.left <= s.right < |stabs| then (LastOr(stabs, kind, s.left, s.right), s.right)
    else (s.right, s.right)
  }

  /** The last entry of this kind in (l, m], or l. */
  function LastOr(stabs: seq<Stab>, kind: nat, l: int, m: int): (k: int)
    requires 0 <= l <= m < |stabs|
    ensures l <= k <= m && (k == l || stabs[k].kind == kind) && forall i :: k < i <= m ==> stabs[i].kind != kind
    decreases m - l
  {
    if m == l || stabs[m].kind == kind then m else LastOr(stabs, kind, l, m - 1)
  }

  /* ---- what a search should find ---- */

  /** The entries of the kind are in increasing order of address. */
  predicate Sorted(stabs: seq<Stab>, kind: nat, lo: int, hi: int)
    requires 0 <= lo && hi < |stabs|
  {
    forall i, j :: lo <= i < j <= hi && stabs[i].kind == kind && stabs[j].kind == kind ==> stabs[i].value <= stabs[j].value
  }

  /** left is the last entry of the kind at or below addr, and right the index before the next entry of
      the kind, or the end of the region. */
  predicate Brackets(stabs: seq<Stab>, kind: nat, lo: int, hi: int, addr: Addr, left: int, right: int) {
    && 0 <= lo <= left <= right <= hi < |stabs|
    && stabs[left].kind == kind && stabs[left].value <= addr
    && (forall i :: left < i <= right ==> stabs[i].kind != kind)
    && (right < hi ==> stabs[right + 1].kind == kind && stabs[right + 1].value > addr)
  }

  /** So every entry of the kind is on its side. */
  lemma BracketsSplit(stabs: seq<Stab>, kind: nat, lo: int, hi: int, addr: Addr, left: int, right: int, i: int)
    requires Brackets(stabs, kind, lo, hi, addr, left, right) && Sorted(stabs, kind, lo, hi) && lo <= i <= hi && stabs[i].kind == kind
    ensures stabs[i].value <= addr <==> i <= left
  {
  }

  /** The turn that finds an exact match does not have the following address in front of it. */
  predicate Clean(stabs: seq<Stab>, kind: nat, s: State)
    requires InTable(stabs, s)
    decreases Measure(stabs, kind, s)
  {
    if s.l > s.r then true
    else
      var m := LastOf(stabs, kind, s.l, (s.l + s.r) / 2);
      if m >= s.l && stabs[m].value == s.addr then
        s.addr < 0xFFFF_FFFF && forall i :: m < i <= s.r && stabs[i].kind == kind ==> stabs[i].value != s.addr + 1
      else Clean(stabs, kind, Turn(stabs, kind, s))
  }

  /* ---- the search keeps the region split at addr ---- */

  /** Left of l everything is at or below a, right of r everything above; left is the last entry at or
      below a so far, if one has been found. */
  predicate Split(stabs: seq<Stab>, kind: nat, lo: int, hi: int, a: Addr, s: State, found: bool) {
    && 0 <= lo && hi < |stabs| && InTable(stabs, s) && lo <= s.l && s.right == s.r <= hi
    && (forall i :: lo <= i < s.l && stabs[i].kind == kind ==> stabs[i].value <= a)
    && (forall i :: s.r < i <= hi && stabs[i].kind == kind ==> stabs[i].value > a)
    && (s.r < hi ==> stabs[s.r + 1].kind == kind)
    && (s.matched <==> found || s.r < hi)
    && (s.addr != a ==> found)
    && if found then
         && lo <= s.left <= s.r && s.left <= s.l && stabs[s.left].kind == kind && stabs[s.left].value <= a
         && forall i :: s.left < i < s.l ==> stabs[i].kind != kind
       else s.left == lo && forall i :: lo <= i < s.l ==> stabs[i].kind != kind
  }

  /** The entry that a turn looks at. */
  function Probe(stabs: seq<Stab>, kind: nat, s: State): (m: int)
    requires InTable(stabs, s) && s.l <= s.r
    ensures s.l - 1 <= m <= (s.l + s.r) / 2 && (m >= s.l ==> stabs[m].kind == kind)
    ensures forall i :: m < i <= (s.l + s.r) / 2 ==> stabs[i].kind != kind
  {
    LastOf(stabs, kind, s.l, (s.l + s.r) / 2)
  }

  /** While comparisons with s.addr tell which side of a an entry is on, a turn keeps the split. */
  lemma TurnSplits(stabs: seq<Stab>, kind: nat, lo: int, hi: int, a: Addr, s: State, found: bool) returns (found': bool)
    requires Split(stabs, kind, lo, hi, a, s, found) && Sorted(stabs, kind, lo, hi) && s.l <= s.r
    requires var m := Probe(stabs, kind, s); m >= s.l ==> (stabs[m].value > s.addr <==> stabs[m].value > a)
    ensures Split(stabs, kind, lo, hi, a, Turn(stabs, kind, s), found')
  {
    hide *;
    SplitTable(stabs, kind, lo, hi, a, s, found);
    TurnForm(stabs, kind, s);
    var m := Probe(stabs, kind, s);
    var trueM := (s.l + s.r) / 2;
    found' := found || (m >= s.l && stabs[m].value <= s.addr);
    if m < s.l { PassSplits(stabs, kind, lo, hi, a, s, found, trueM); }
    else if stabs[m].value < s.addr { BelowSplits(stabs, kind, lo, hi, a, s, found, trueM, m); }
    else if stabs[m].value > s.addr { AboveSplits(stabs, kind, lo, hi, a, s, found, m); }
    else { ExactSplits(stabs, kind, lo, hi, a, s, found, m); }
  }

  lemma SplitTable(stabs: seq<Stab>, kind: nat, lo: int, hi: int, a: Addr, s: State, found: bool)
    requires Split(stabs, kind, lo, hi, a, s, found)
    ensures InTable(stabs, s) && 0 <= s.l && s.r < |stabs| && 0 <= lo && hi < |stabs|
  {
  }

  lemma TurnForm(stabs: seq<Stab>, kind: nat, s: State)
    requires InTable(stabs, s) && s.l <= s.r
    ensures var (m, trueM) := (Probe(stabs, kind, s), (s.l + s.r) / 2);
            Turn(stabs, kind, s) == if m < s.l then s.(l := trueM + 1)
                                    else if stabs[m].value < s.addr then s.(l := trueM + 1, left := m, matched := true)
                                    else if stabs[m].value > s.addr then s.(r := m - 1, right := m - 1, matched := true)
                                    else s.(l := m, left := m, addr := Next(s.addr), matched := true)
    ensures s.l <= (s.l + s.r) / 2 <= s.r
  {
  }

  lemma PassSplits(stabs: seq<Stab>, kind: nat, lo: int, hi: int, a: Addr, s: State, found: bool, trueM: int)
    requires Split(stabs, kind, lo, hi, a, s, found) && s.l <= trueM <= s.r
    requires forall i :: s.l <= i <= trueM ==> stabs[i].kind != kind
    ensures Split(stabs, kind, lo, hi, a, s.(l := trueM + 1), found)
  {
  }

  lemma BelowSplits(stabs: seq<Stab>, kind: nat, lo: int, hi: int, a: Addr, s: State, found: bool, trueM: int, m: int)
    requires Split(stabs, kind, lo, hi, a, s, found) && Sorted(stabs, kind, lo, hi) && s.l <= m <= trueM <= s.r
    requires stabs[m].kind == kind && stabs[m].value <= a && forall i :: m < i <= trueM ==> stabs[i].kind != kind
    ensures Split(stabs, kind, lo, hi, a, s.(l := trueM + 1, left := m, matched := true), true)
  {
  }

  lemma AboveSplits(stabs: seq<Stab>, kind: nat, lo: int, hi: int, a: Addr, s: State, found: bool, m: int)
    requires Split(stabs, kind, lo, hi, a, s, found) && Sorted(stabs, kind, lo, hi) && s.l <= m <= s.r
    requires stabs[m].kind == kind && stabs[m].value > a
    ensures Split(stabs, kind, lo, hi, a, s.(r := m - 1, right := m - 1, matched := true), found)
  {
  }

  lemma ExactSplits(stabs: seq<Stab>, kind: nat, lo: int, hi: int, a: Addr, s: State, found: bool, m: int)
    requires Split(stabs, kind, lo, hi, a, s, found) && Sorted(stabs, kind, lo, hi) && s.l <= m <= s.r
    requires stabs[m].kind == kind && stabs[m].value <= a
    ensures Split(stabs, kind, lo, hi, a, s.(l := m, left := m, addr := Next(s.addr), matched := true), true)
  {
  }

  /** Past an exact match: s.addr is a + 1, which no entry in front has. */
  lemma {:induction false} SearchPast(stabs: seq<Stab>, kind: nat, lo: int, hi: int, a: Addr, s: State, found: bool) returns (found': bool)
    requires Split(stabs, kind, lo, hi, a, s, found) && Sorted(stabs, kind, lo, hi) && s.addr == a + 1
    requires forall i :: s.l <= i <= s.r && stabs[i].kind == kind ==> stabs[i].value != s.addr
    ensures Split(stabs, kind, lo, hi, a, Search(stabs, kind, s), found')
    decreases Measure(stabs, kind, s)
  {
    found' := found;
    if s.l <= s.r {
      found' := TurnSplits(stabs, kind, lo, hi, a, s, found);
      TurnPast(stabs, kind, s);
      hide Split, Turn, Sorted, LastOf;
      found' := SearchPast(stabs, kind, lo, hi, a, Turn(stabs, kind, s), found');
    }
  }

  lemma TurnPast(stabs: seq<Stab>, kind: nat, s: State)
    requires InTable(stabs, s) && s.l <= s.r
    requires forall i :: s.l <= i <= s.r && stabs[i].kind == kind ==> stabs[i].value != s.addr
    ensures var s' := Turn(stabs, kind, s);
            s'.addr == s.addr && forall i :: s'.l <= i <= s'.r && stabs[i].kind == kind ==> stabs[i].value != s'.addr
  {
  }

  /** A clean search ends with the region split at a. */
  lemma {:induction false} SearchSplits(stabs: seq<Stab>, kind: nat, lo: int, hi: int, a: Addr, s: State, found: bool) returns (found': bool)
    requires Split(stabs, kind, lo, hi, a, s, found) && Sorted(stabs, kind, lo, hi) && s.addr == a && Clean(stabs, kind, s)
    ensures Split(stabs, kind, lo, hi, a, Search(stabs, kind, s), found')
    decreases Measure(stabs, kind, s)
  {
    found' := found;
    if s.l <= s.r {
      found' := TurnSplits(stabs, kind, lo, hi, a, s, found);
      var (m, s') := (Probe(stabs, kind, s), Turn(stabs, kind, s));
      if m >= s.l && stabs[m].value == a {
        ExactClean(stabs, kind, s);
        hide Split, Turn, Sorted, LastOf, Clean;
        found' := SearchPast(stabs, kind, lo, hi, a, s', found');
      } else {
        assert s'.addr == a && Clean(stabs, kind, s');
        hide Split, Turn, Sorted, LastOf, Clean;
        found' := SearchSplits(stabs, kind, lo, hi, a, s', found');
      }
    }
  }

  lemma ExactClean(stabs: seq<Stab>, kind: nat, s: State)
    requires InTable(stabs, s) && s.l <= s.r && Clean(stabs, kind, s)
    requires Probe(stabs, kind, s) >= s.l && stabs[Probe(stabs, kind, s)].value == s.addr
    ensures var s' := Turn(stabs, kind, s);
            s'.addr == s.addr + 1 && forall i :: s'.l <= i <= s'.r && stabs[i].kind == kind ==> stabs[i].value != s'.addr
  {
  }

  /* ---- the result ---- */

  predicate Region(stabs: seq<Stab>, lo: int, hi: int) { 0 <= lo <= hi + 1 && hi < |stabs| }

  function Start(lo: int, hi: int, addr: Addr): State { State(lo, hi, lo, hi, addr, false) }

  /** Without an entry of the kind the bounds come back crossed, right just below left. */
  lemma {:induction false} NoneMatches(stabs: seq<Stab>, kind: nat, s: State)
    requires InTable(stabs, s) && !s.matched && forall i :: s.l <= i <= s.r ==> stabs[i].kind != kind
    ensures !Search(stabs, kind, s).matched && Search(stabs, kind, s).left == s.left
    decreases Measure(stabs, kind, s)
  {
    if s.l <= s.r { NoneMatches(stabs, kind, Turn(stabs, kind, s)); }
  }

  lemma EmptyResult(stabs: seq<Stab>, kind: nat, lo: int, hi: int, addr: Addr)
    requires Region(stabs, lo, hi) && forall i :: lo <= i <= hi ==> stabs[i].kind != kind
    ensures Result(stabs, kind, lo, hi, addr) == (lo, lo - 1)
  {
    NoneMatches(stabs, kind, Start(lo, hi, addr));
  }

  /** A split region gives the right answer when some entry is at or below addr; when none is, left stays
      and right is just before the first entry, so the bounds do not come back crossed. */
  lemma SplitResult(stabs: seq<Stab>, kind: nat, lo: int, hi: int, addr: Addr, found: bool)
    requires Region(stabs, lo, hi)
    requires var s := Search(stabs, kind, Start(lo, hi, addr)); Split(stabs, kind, lo, hi, addr, s, found)
    ensures var (left, right) := Result(stabs, kind, lo, hi, addr);
            if found then Brackets(stabs, kind, lo, hi, addr, left, right)
            else if exists i :: lo <= i <= hi && stabs[i].kind == kind then
              && left <= lo && left <= right < hi && (left < lo ==> left == right == lo - 1)
              && stabs[right + 1].kind == kind && stabs[right + 1].value > addr
              && forall i :: lo <= i <= right ==> stabs[i].kind != kind
            else (left, right) == (lo, lo - 1)
  {
    hide Search;
  }

  /* ---- when the answer is wrong ---- */

  const LAST: Addr := 0xFFFF_FFFF

  /** The entry at which addr++ wraps around, the last address having been met there; -1 if it never does. */
  function WrapAt(stabs: seq<Stab>, kind: nat, s: State): (w: int)
    requires InTable(stabs, s)
    ensures w >= 0 ==> s.l <= w <= s.r && stabs[w].kind == kind && stabs[w].value == LAST
    decreases Measure(stabs, kind, s)
  {
    if s.l > s.r then -1
    else
      var m := LastOf(stabs, kind, s.l, (s.l + s.r) / 2);
      if m >= s.l && stabs[m].value == s.addr == LAST then m else WrapAt(stabs, kind, Turn(stabs, kind, s))
  }

  lemma WrapForm(stabs: seq<Stab>, kind: nat, s: State)
    requires InTable(stabs, s) && s.l <= s.r
    ensures var m := Probe(stabs, kind, s);
            WrapAt(stabs, kind, s) == if m >= s.l && stabs[m].value == s.addr == LAST then m else WrapAt(stabs, kind, Turn(stabs, kind, s))
  {
    hide Turn, LastOf;
  }

  /** addr++ does not wrap from here on. */
  predicate Bounds(stabs: seq<Stab>, kind: nat, lo: int, hi: int, s: State) {
    0 <= lo && hi < |stabs| && InTable(stabs, s) && lo <= s.l && s.right == s.r <= hi && Sorted(stabs, kind, lo, hi) && WrapAt(stabs, kind, s) < 0
  }

  /** left has moved past a. */
  predicate LeftPast(stabs: seq<Stab>, kind: nat, lo: int, hi: int, a: Addr, s: State) {
    && Bounds(stabs, kind, lo, hi, s) && s.matched && lo <= s.left <= s.r && s.left <= s.l
    && stabs[s.left].kind == kind && a < stabs[s.left].value < s.addr
  }

  lemma SortedAt(stabs: seq<Stab>, kind: nat, lo: int, hi: int, i: int, j: int)
    requires 0 <= lo <= i <= j <= hi < |stabs| && Sorted(stabs, kind, lo, hi) && stabs[i].kind == kind && stabs[j].kind == kind
    ensures stabs[i].value <= stabs[j].value
  {
  }

  lemma LeftPastIs(stabs: seq<Stab>, kind: nat, lo: int, hi: int, a: Addr, s: State)
    requires 0 <= lo && 0 <= s.left
    ensures LeftPast(stabs, kind, lo, hi, a, s) <==>
            && Bounds(stabs, kind, lo, hi, s) && s.matched && lo <= s.left <= s.r && s.left <= s.l && s.left < |stabs|
            && stabs[s.left].kind == kind && a < stabs[s.left].value < s.addr
  {
    hide WrapAt, Sorted;
  }

  lemma LeftPastParts(stabs: seq<Stab>, kind: nat, lo: int, hi: int, a: Addr, s: State)
    requires LeftPast(stabs, kind, lo, hi, a, s)
    ensures Bounds(stabs, kind, lo, hi, s) && 0 <= lo && 0 <= s.left
  {
    hide WrapAt, Sorted;
  }

  lemma TurnLeftPast(stabs: seq<Stab>, kind: nat, lo: int, hi: int, a: Addr, s: State)
    requires LeftPast(stabs, kind, lo, hi, a, s) && s.l <= s.r
    ensures LeftPast(stabs, kind, lo, hi, a, Turn(stabs, kind, s))
  {
    hide *;
    LeftPastParts(stabs, kind, lo, hi, a, s);
    LeftPastIs(stabs, kind, lo, hi, a, s);
    BoundsParts(stabs, kind, lo, hi, s);
    InTableIs(stabs, s);
    TurnForm(stabs, kind, s);
    WrapForm(stabs, kind, s);
    TurnBounds(stabs, kind, lo, hi, s);
    LastIs();
    var m := Probe(stabs, kind, s);
    if m >= s.l {
      SortedAt(stabs, kind, lo, hi, s.left, m);
      NextIs(s.addr);
    }
    LeftPastIs(stabs, kind, lo, hi, a, Turn(stabs, kind, s));
  }

  lemma InTableIs(stabs: seq<Stab>, s: State)
    ensures InTable(stabs, s) <==> 0 <= s.l <= s.r + 1 && s.r < |stabs|
  {
  }

  lemma {:induction false} LeftStaysPast(stabs: seq<Stab>, kind: nat, lo: int, hi: int, a: Addr, s: State)
    requires LeftPast(stabs, kind, lo, hi, a, s)
    ensures LeftPast(stabs, kind, lo, hi, a, Search(stabs, kind, s))
    decreases Measure(stabs, kind, s)
  {
    if s.l <= s.r {
      TurnLeftPast(stabs, kind, lo, hi, a, s);
      hide Turn, LeftPast;
      LeftStaysPast(stabs, kind, lo, hi, a, Turn(stabs, kind, s));
    }
  }

  /** Entry j has the address a + 1 that the search has moved to. */
  predicate InFront(stabs: seq<Stab>, kind: nat, lo: int, hi: int, a: Addr, s: State, j: int) {
    Bounds(stabs, kind, lo, hi, s) && s.l <= j <= s.r && stabs[j].kind == kind && stabs[j].value == a + 1 == s.addr
  }

  lemma TurnBounds(stabs: seq<Stab>, kind: nat, lo: int, hi: int, s: State)
    requires Bounds(stabs, kind, lo, hi, s) && s.l <= s.r
    ensures Bounds(stabs, kind, lo, hi, Turn(stabs, kind, s))
  {
    TurnForm(stabs, kind, s);
    WrapForm(stabs, kind, s);
    hide Turn, LastOf, Sorted, WrapAt;
  }

  lemma BoundsParts(stabs: seq<Stab>, kind: nat, lo: int, hi: int, s: State)
    requires Bounds(stabs, kind, lo, hi, s)
    ensures 0 <= lo <= s.l && s.r == s.right <= hi < |stabs| && InTable(stabs, s) && WrapAt(stabs, kind, s) < 0 && Sorted(stabs, kind, lo, hi)
  {
  }

  lemma InFrontParts(stabs: seq<Stab>, kind: nat, lo: int, hi: int, a: Addr, s: State, j: int)
    requires InFront(stabs, kind, lo, hi, a, s, j)
    ensures Bounds(stabs, kind, lo, hi, s) && 0 <= s.l <= j <= s.r < |stabs| && stabs[j].kind == kind && stabs[j].value == a + 1 == s.addr
  {
    hide WrapAt, Sorted;
  }

  lemma TurnInFront(stabs: seq<Stab>, kind: nat, lo: int, hi: int, a: Addr, s: State, j: int)
    requires InFront(stabs, kind, lo, hi, a, s, j)
    ensures var s' := Turn(stabs, kind, s); InFront(stabs, kind, lo, hi, a, s', j) || LeftPast(stabs, kind, lo, hi, a, s')
  {
    hide *;
    InFrontParts(stabs, kind, lo, hi, a, s, j);
    BoundsParts(stabs, kind, lo, hi, s);
    InTableIs(stabs, s);
    TurnForm(stabs, kind, s);
    WrapForm(stabs, kind, s);
    TurnBounds(stabs, kind, lo, hi, s);
    LastIs();
    var (m, s') := (Probe(stabs, kind, s), Turn(stabs, kind, s));
    if m >= s.l && stabs[m].value == s.addr {
      NextIs(s.addr);
      LeftPastIs(stabs, kind, lo, hi, a, s');
    } else {
      if m >= s.l && m <= j { SortedAt(stabs, kind, lo, hi, m, j); }
      if m >= s.l && j < m { SortedAt(stabs, kind, lo, hi, j, m); }
      InFrontIs(stabs, kind, lo, hi, a, s', j);
    }
  }

  lemma {:induction false} InFrontIsTaken(stabs: seq<Stab>, kind: nat, lo: int, hi: int, a: Addr, s: State, j: int)
    requires InFront(stabs, kind, lo, hi, a, s, j)
    ensures LeftPast(stabs, kind, lo, hi, a, Search(stabs, kind, s))
    decreases Measure(stabs, kind, s)
  {
    TurnInFront(stabs, kind, lo, hi, a, s, j);
    var s' := Turn(stabs, kind, s);
    hide Turn, LeftPast;
    if InFront(stabs, kind, lo, hi, a, s', j) { InFrontIsTaken(stabs, kind, lo, hi, a, s', j); }
    else { LeftStaysPast(stabs, kind, lo, hi, a, s'); }
  }

  lemma CleanForm(stabs: seq<Stab>, kind: nat, s: State)
    requires InTable(stabs, s) && s.l <= s.r
    ensures var m := Probe(stabs, kind, s);
            Clean(stabs, kind, s) == if m >= s.l && stabs[m].value == s.addr then
                                       s.addr < 0xFFFF_FFFF && forall i :: m < i <= s.r && stabs[i].kind == kind ==> stabs[i].value != s.addr + 1
                                     else Clean(stabs, kind, Turn(stabs, kind, s))
  {
    hide Turn, LastOf;
  }

  lemma BoundsIs(stabs: seq<Stab>, kind: nat, lo: int, hi: int, s: State)
    requires Bounds(stabs, kind, lo, hi, s)
    ensures InTable(stabs, s) && 0 <= s.l && s.r < |stabs| && WrapAt(stabs, kind, s) < 0
  {
  }

  lemma TurnUnclean(stabs: seq<Stab>, kind: nat, lo: int, hi: int, a: Addr, s: State) returns (j: int)
    requires Bounds(stabs, kind, lo, hi, s) && s.l <= s.r && s.addr == a && !Clean(stabs, kind, s)
    ensures var s' := Turn(stabs, kind, s);
            InFront(stabs, kind, lo, hi, a, s', j) || (Bounds(stabs, kind, lo, hi, s') && s'.addr == a && !Clean(stabs, kind, s'))
  {
    hide *;
    j := 0;
    BoundsIs(stabs, kind, lo, hi, s);
    CleanForm(stabs, kind, s);
    TurnForm(stabs, kind, s);
    TurnBounds(stabs, kind, lo, hi, s);
    WrapForm(stabs, kind, s);
    LastIs();
    var m := Probe(stabs, kind, s);
    if m >= s.l && stabs[m].value == a {
      j :| m < j <= s.r && stabs[j].kind == kind && stabs[j].value == a + 1;
      NextIs(a);
      InFrontIs(stabs, kind, lo, hi, a, Turn(stabs, kind, s), j);
    }
  }

  lemma LastIs()
    ensures LAST == 0xFFFF_FFFF
  {
  }

  lemma NextIs(a: Addr)
    ensures a < 0xFFFF_FFFF ==> Next(a) == a + 1
  {
  }

  lemma InFrontIs(stabs: seq<Stab>, kind: nat, lo: int, hi: int, a: Addr, s: State, j: int)
    requires Bounds(stabs, kind, lo, hi, s) && s.l <= j <= s.r < |stabs| && 0 <= j && stabs[j].kind == kind && stabs[j].value == a + 1 == s.addr
    ensures InFront(stabs, kind, lo, hi, a, s, j)
  {
  }

  lemma {:induction false} UncleanIsPast(stabs: seq<Stab>, kind: nat, lo: int, hi: int, a: Addr, s: State)
    requires Bounds(stabs, kind, lo, hi, s) && s.addr == a && !Clean(stabs, kind, s)
    ensures LeftPast(stabs, kind, lo, hi, a, Search(stabs, kind, s))
    decreases Measure(stabs, kind, s)
  {
    if s.l <= s.r {
      var j := TurnUnclean(stabs, kind, lo, hi, a, s);
      var s' := Turn(stabs, kind, s);
      hide Turn, LeftPast, Clean;
      if InFront(stabs, kind, lo, hi, a, s', j) { InFrontIsTaken(stabs, kind, lo, hi, a, s', j); }
      else { UncleanIsPast(stabs, kind, lo, hi, a, s'); }
    }
  }

  lemma PastResult(stabs: seq<Stab>, kind: nat, lo: int, hi: int, addr: Addr)
    requires Region(stabs, lo, hi) && LeftPast(stabs, kind, lo, hi, addr, Search(stabs, kind, Start(lo, hi, addr)))
    ensures var (left, right) := Result(stabs, kind, lo, hi, addr); !Brackets(stabs, kind, lo, hi, addr, left, right)
  {
    hide Search;
  }

  /* ---- when addr++ wraps around ---- */

  /** After the wrap-around every entry in front is above addr, down to the one at which it happened. */
  lemma {:induction false} PastWrap(stabs: seq<Stab>, kind: nat, w: int, s: State)
    requires InTable(stabs, s) && s.l == s.left == w <= s.r + 1 && w < |stabs| && s.right == s.r && s.matched && s.addr == 0
    requires stabs[w].kind == kind && forall i :: w <= i <= s.r && stabs[i].kind == kind ==> stabs[i].value > 0
    ensures var e := Search(stabs, kind, s); e.matched && e.left == w && e.right == w - 1
    decreases Measure(stabs, kind, s)
  {
    if s.l <= s.r {
      TurnForm(stabs, kind, s);
      PastWrap(stabs, kind, w, Turn(stabs, kind, s));
    }
  }

  lemma {:induction false} WrapEnds(stabs: seq<Stab>, kind: nat, lo: int, hi: int, s: State)
    requires 0 <= lo && hi < |stabs| && Sorted(stabs, kind, lo, hi) && InTable(stabs, s) && lo <= s.l && s.right == s.r <= hi
    requires WrapAt(stabs, kind, s) >= 0
    ensures var (e, w) := (Search(stabs, kind, s), WrapAt(stabs, kind, s)); e.matched && e.left == w && e.right == w - 1
    decreases Measure(stabs, kind, s)
  {
    TurnForm(stabs, kind, s);
    WrapForm(stabs, kind, s);
    hide Turn, LastOf;
    var m := Probe(stabs, kind, s);
    if m >= s.l && stabs[m].value == s.addr == LAST {
      PastWrap(stabs, kind, m, Turn(stabs, kind, s));
    } else {
      WrapEnds(stabs, kind, lo, hi, Turn(stabs, kind, s));
    }
  }

  /** Then both bounds come back as the index before that entry. */
  lemma WrapResult(stabs: seq<Stab>, kind: nat, lo: int, hi: int, addr: Addr)
    requires Region(stabs, lo, hi) && Sorted(stabs, kind, lo, hi) && WrapAt(stabs, kind, Start(lo, hi, addr)) >= 0
    ensures var w := WrapAt(stabs, kind, Start(lo, hi, addr)); Result(stabs, kind, lo, hi, addr) == (w - 1, w - 1)
  {
    WrapEnds(stabs, kind, lo, hi, Start(lo, hi, addr));
    hide Search, WrapAt;
  }

  /** That is right by luck only: if the entry just before is of the kind and at or below addr, which itself
      is not the last address. */
  predicate Lucky(stabs: seq<Stab>, kind: nat, lo: int, addr: Addr, w: int) {
    lo < w <= |stabs| && 0 < w && stabs[w - 1].kind == kind && stabs[w - 1].value <= addr < LAST
  }

  lemma WrapBrackets(stabs: seq<Stab>, kind: nat, lo: int, hi: int, addr: Addr, w: int)
    requires Region(stabs, lo, hi) && lo <= w <= hi && stabs[w].kind == kind && stabs[w].value == LAST
    ensures Brackets(stabs, kind, lo, hi, addr, w - 1, w - 1) <==> Lucky(stabs, kind, lo, addr, w)
  {
  }

  /* ---- the theorem ---- */

  /** If some entry of the kind is at or below addr: as long as addr++ does not wrap around, the bounds
      returned bracket addr exactly when the turn that meets addr itself, if any, has not got the entry
      for addr + 1 still in front; and where it does, exactly by luck. */
  lemma BracketsExactly(stabs: seq<Stab>, kind: nat, lo: int, hi: int, addr: Addr)
    requires Region(stabs, lo, hi) && Sorted(stabs, kind, lo, hi)
    requires exists i :: lo <= i <= hi && stabs[i].kind == kind && stabs[i].value <= addr
    ensures var ((left, right), w) := (Result(stabs, kind, lo, hi, addr), WrapAt(stabs, kind, Start(lo, hi, addr)));
            Brackets(stabs, kind, lo, hi, addr, left, right) <==>
              if w < 0 then Clean(stabs, kind, Start(lo, hi, addr)) else Lucky(stabs, kind, lo, addr, w)
  {
    var s := Start(lo, hi, addr);
    if WrapAt(stabs, kind, s) >= 0 {
      hide *;
      WrapResult(stabs, kind, lo, hi, addr);
      WrapBrackets(stabs, kind, lo, hi, addr, WrapAt(stabs, kind, s));
    } else if Clean(stabs, kind, s) {
      var found := SearchSplits(stabs, kind, lo, hi, addr, s, false);
      hide Search, Clean, WrapAt;
      SplitResult(stabs, kind, lo, hi, addr, found);
    } else {
      UncleanIsPast(stabs, kind, lo, hi, addr, s);
      hide Search, Clean, WrapAt;
      PastResult(stabs, kind, lo, hi, addr);
    }
  }

  /** In particular when no two entries of the kind have addr and addr + 1. */
  lemma {:induction false} CleanWithoutNext(stabs: seq<Stab>, kind: nat, s: State)
    requires InTable(stabs, s) && s.addr < 0xFFFF_FFFF
    requires forall i :: s.l <= i <= s.r && stabs[i].kind == kind ==> stabs[i].value != s.addr + 1
    ensures Clean(stabs, kind, s)
    decreases Measure(stabs, kind, s)
  {
    if s.l <= s.r {
      var m := Probe(stabs, kind, s);
      if !(m >= s.l && stabs[m].value == s.addr) { CleanWithoutNext(stabs, kind, Turn(stabs, kind, s)); }
    }
  }

  lemma {:induction false} CleanNoWrap(stabs: seq<Stab>, kind: nat, s: State)
    requires InTable(stabs, s) && Clean(stabs, kind, s)
    ensures WrapAt(stabs, kind, s) < 0
    decreases Measure(stabs, kind, s)
  {
    if s.l <= s.r {
      WrapForm(stabs, kind, s);
      var m := Probe(stabs, kind, s);
      if m >= s.l && stabs[m].value == s.addr {
        ExactClean(stabs, kind, s);
        NoMatchNoWrap(stabs, kind, Turn(stabs, kind, s));
      } else {
        CleanNoWrap(stabs, kind, Turn(stabs, kind, s));
      }
    }
  }

  lemma {:induction false} NoMatchNoWrap(stabs: seq<Stab>, kind: nat, s: State)
    requires InTable(stabs, s) && forall i :: s.l <= i <= s.r && stabs[i].kind == kind ==> stabs[i].value != s.addr
    ensures WrapAt(stabs, kind, s) < 0
    decreases Measure(stabs, kind, s)
  {
    if s.l <= s.r {
      WrapForm(stabs, kind, s);
      TurnPast(stabs, kind, s);
      NoMatchNoWrap(stabs, kind, Turn(stabs, kind, s));
    }
  }

  /** What a caller can rely on: if some entry of the kind is at or below addr, addr is not the last address
      and no entry of the kind has the address after it, the bounds returned bracket addr. */
  lemma NoNextBrackets(stabs: seq<Stab>, kind: nat, lo: int, hi: int, addr: Addr)
    requires Region(stabs, lo, hi) && Sorted(stabs, kind, lo, hi) && addr < LAST
    requires exists i :: lo <= i <= hi && stabs[i].kind == kind && stabs[i].value <= addr
    requires forall i :: lo <= i <= hi && stabs[i].kind == kind ==> stabs[i].value != addr + 1
    ensures var (left, right) := Result(stabs, kind, lo, hi, addr); Brackets(stabs, kind, lo, hi, addr, left, right)
  {
    var s := Start(lo, hi, addr);
    CleanWithoutNext(stabs, kind, s);
    CleanNoWrap(stabs, kind, s);
    BracketsExactly(stabs, kind, lo, hi, addr);
    hide Search, Clean, WrapAt, Result, Turn;
  }

  /** If all entries of the kind are above addr, the bounds do not come back crossed, although addr is
      in no entry. */
  lemma AllAbove(stabs: seq<Stab>, kind: nat, lo: int, hi: int, addr: Addr)
    requires Region(stabs, lo, hi) && Sorted(stabs, kind, lo, hi)
    requires exists i :: lo <= i <= hi && stabs[i].kind == kind
    requires forall i :: lo <= i <= hi && stabs[i].kind == kind ==> stabs[i].value > addr
    ensures var (left, right) := Result(stabs, kind, lo, hi, addr); left <= right
  {
    var s := Start(lo, hi, addr);
    CleanAbove(stabs, kind, s);
    var found := SearchSplits(stabs, kind, lo, hi, addr, s, false);
    hide Search, Clean;
    SplitResult(stabs, kind, lo, hi, addr, found);
  }

  lemma {:induction false} CleanAbove(stabs: seq<Stab>, kind: nat, s: State)
    requires InTable(stabs, s) && forall i :: s.l <= i <= s.r && stabs[i].kind == kind ==> stabs[i].value > s.addr
    ensures Clean(stabs, kind, s)
    decreases Measure(stabs, kind, s)
  {
    if s.l <= s.r { CleanAbove(stabs, kind, Turn(stabs, kind, s)); }
  }

  /** Two adjacent functions of one byte: looking for the first finds the second. */
  lemma NextAddressTaken(kind: nat)
    ensures var stabs := [Stab(kind, 10), Stab(kind, 11)];
            Result(stabs, kind, 0, 1, 10) == (1, 1) && !Brackets(stabs, kind, 0, 1, 10, 1, 1)
  {
    var stabs := [Stab(kind, 10), Stab(kind, 11)];
    var s0 := Start(0, 1, 10);
    var s1 := State(0, 1, 0, 1, 11, true);
    var s2 := State(1, 1, 0, 1, 11, true);
    var s3 := State(1, 1, 1, 1, 12, true);
    var s4 := State(2, 1, 1, 1, 12, true);
    assert Turn(stabs, kind, s0) == s1 && Turn(stabs, kind, s1) == s2 && Turn(stabs, kind, s2) == s3 && Turn(stabs, kind, s3) == s4;
    hide Turn;
    assert Search(stabs, kind, s3) == s4;
    assert Search(stabs, kind, s1) == s4;
  }

  /* ---- the routine ---- */

  /** The inner loop, walking down from trueM. */
  method EarliestOfKind(stabs: array<Stab>, kind: nat, l: int, trueM: int) returns (m: int)
    requires 0 <= l <= trueM + 1 && trueM < stabs.Length
    ensures m == LastOf(stabs[..], kind, l, trueM)
  {
    m := trueM;
    while m >= l && stabs[m].kind != kind
      invariant l - 1 <= m <= trueM && LastOf(stabs[..], kind, l, m) == LastOf(stabs[..], kind, l, trueM)
    {
      m := m - 1;
    }
  }

  method StabBinSearch(stabs: array<Stab>, regionLeft: int, regionRight: int, kind: nat, addr0: Addr) returns (left: int, right: int)
    requires Region(stabs[..], regionLeft, regionRight)
    ensures (left, right) == Result(stabs[..], kind, regionLeft, regionRight, addr0)
  {
    hide Search, Turn, Measure, LastOf, Probe;
    left, right := regionLeft, regionRight;
    var l, r, addr, matched := left, right, addr0, false;
    while l <= r
      invariant var s := State(l, r, left, right, addr, matched);
                InTable(stabs[..], s) && Search(stabs[..], kind, s) == Search(stabs[..], kind, Start(regionLeft, regionRight, addr0))
      decreases Measure(stabs[..], kind, State(l, r, left, right, addr, matched))
    {
      ghost var s := State(l, r, left, right, addr, matched);
      TurnForm(stabs[..], kind, s);
      SearchForm(stabs[..], kind, s);
      hide Turn, Measure, LastOf;
      var trueM := (l + r) / 2;
      var m := EarliestOfKind(stabs, kind, l, trueM);
      if m < l {
        l := trueM + 1;
      } else {
        matched := true;
        if stabs[m].value < addr {
          left, l := m, trueM + 1;
        } else if stabs[m].value > addr {
          right, r := m - 1, m - 1;
        } else {
          left, l, addr := m, m, Next(addr);
        }
      }
      assert State(l, r, left, right, addr, matched) == Turn(stabs[..], kind, s);
    }
    SearchForm(stabs[..], kind, State(l, r, left, right, addr, matched));
    if !matched {
      right := left - 1;
    } else {
      BoundsAtEnd(stabs[..], kind, regionLeft, regionRight, addr0);
      l := right;
      while l > left && stabs[l].kind != kind
        invariant 0 <= left <= right ==> left <= l <= right && LastOr(stabs[..], kind, left, l) == LastOr(stabs[..], kind, left, right)
        invariant left > right ==> l == right
      {
        l := l - 1;
      }
      left := l;
    }
  }

  lemma SearchForm(stabs: seq<Stab>, kind: nat, s: State)
    requires InTable(stabs, s)
    ensures Search(stabs, kind, s) == if s.l > s.r then s else Search(stabs, kind, Turn(stabs, kind, s))
    ensures s.l <= s.r ==> Probe(stabs, kind, s) == LastOf(stabs, kind, s.l, (s.l + s.r) / 2)
  {
  }

  /** *region_right stays inside the table and *region_left at or above the region's start. */
  lemma {:induction false} LeftStays(stabs: seq<Stab>, kind: nat, s: State)
    requires InTable(stabs, s) && s.right == s.r && 0 <= s.left
    ensures var e := Search(stabs, kind, s); e.right == e.r && 0 <= e.left
    decreases Measure(stabs, kind, s)
  {
    if s.l <= s.r { LeftStays(stabs, kind, Turn(stabs, kind, s)); }
  }

  lemma BoundsAtEnd(stabs: seq<Stab>, kind: nat, lo: int, hi: int, addr: Addr)
    requires Region(stabs, lo, hi)
    ensures var e := Search(stabs, kind, Start(lo, hi, addr)); e.right == e.r < |stabs| && 0 <= e.left
  {
    LeftStays(stabs, kind, Start(lo, hi, addr));
  }
}
