/** What a lost slot suggests instead: a scan of the campus grid, and the merge that both the
    scan and the two fallback queries end in. */
module Alternatives {
  import opened Pivot

  const MAX_ALTERNATIVES: nat := 3
  const MAX_SAME: nat := 2

  datatype Kind = LaterHere | Elsewhere
  datatype Alternative = Alternative(court: nat, name: nat, sport: nat, start: Instant, end: Instant, kind: Kind)
  datatype Request = Request(court: nat, sport: nat, start: Instant, duration: int)

  predicate Bookable(state: State)
  {
    state == "free" || state == "filling"
  }

  // ---------------------------------------------------------------- one run

  function Width(line: seq<State>, slots: seq<Slot>): nat
  {
    if |line| < |slots| then |line| else |slots|
  }

  predicate Adjacent(slots: seq<Slot>, i: int)
    requires 0 < i < |slots|
  {
    slots[i].start == slots[i - 1].end
  }

  /** Columns si..e are bookable and each begins where the previous one ends. */
  ghost predicate Unbroken(line: seq<State>, slots: seq<Slot>, si: nat, e: nat)
    requires e < Width(line, slots)
  {
    && (forall i :: si < i <= e ==> Adjacent(slots, i))
    && (forall i :: si <= i <= e ==> Bookable(line[i]))
  }

  /** An unbroken chain from column si covers the duration. */
  ghost predicate Fits(line: seq<State>, slots: seq<Slot>, si: int, d: int)
  {
    && 0 <= si < Width(line, slots)
    && exists e :: si <= e < Width(line, slots) && Unbroken(line, slots, si, e) && slots[e].end >= slots[si].start + d
  }

  method RunFree(line: seq<State>, slots: seq<Slot>, si: int, d: int) returns (free: bool)
    ensures free <==> Fits(line, slots, si, d)
  {
    if si < 0 || si >= |slots| || si >= |line| {
      return false;
    }
    var need := slots[si].start + d;
    var i := si;
    while i < |slots| && i < |line|
      invariant si <= i <= Width(line, slots)
      invariant i > si ==> Unbroken(line, slots, si, i - 1)
      invariant forall e :: si <= e < i ==> slots[e].end < need
    {
      if i > si && slots[i].start != slots[i - 1].end {
        assert !Adjacent(slots, i);
        return false;
      }
      if !Bookable(line[i]) {
        return false;
      }
      if !(slots[i].end < need) {
        assert Unbroken(line, slots, si, i);
        return true;
      }
      i := i + 1;
    }
    return false;
  }

  /** t lies in a bookable cell of this row. */
  ghost predicate Covered(line: seq<State>, slots: seq<Slot>, t: Instant)
  {
    exists i :: 0 <= i < Width(line, slots) && Bookable(line[i]) && slots[i].start <= t < slots[i].end
  }

  lemma {:induction false} ChainCovers(line: seq<State>, slots: seq<Slot>, si: nat, e: nat, t: Instant)
    requires si <= e < Width(line, slots) && Unbroken(line, slots, si, e)
    requires slots[si].start <= t < slots[e].end
    ensures Covered(line, slots, t)
    decreases e
  {
    if e > si && t < slots[e - 1].end {
      ChainCovers(line, slots, si, e - 1, t);
    } else {
      assert e > si ==> Adjacent(slots, e);
    }
  }

  /** No moment of a suggested window lies outside the bookable cells, whatever the axis. */
  lemma FitsIsSound(line: seq<State>, slots: seq<Slot>, si: nat, d: int, t: Instant)
    requires Fits(line, slots, si, d) && slots[si].start <= t < slots[si].start + d
    ensures Covered(line, slots, t)
  {
    var e :| si <= e < Width(line, slots) && Unbroken(line, slots, si, e) && slots[e].end >= slots[si].start + d;
    ChainCovers(line, slots, si, e, t);
  }

  ghost predicate IsAxis(slots: seq<Slot>)
  {
    && (forall i :: 0 <= i < |slots| ==> slots[i].start < slots[i].end)
    && (forall i, j :: 0 <= i < j < |slots| ==> slots[i].end <= slots[j].start)
  }

  /** On an axis of disjoint ascending columns the chain test is exactly coverage. */
  lemma FitsIsCoverage(line: seq<State>, slots: seq<Slot>, si: nat, d: int)
    requires IsAxis(slots) && si < Width(line, slots) && d > 0
    ensures Fits(line, slots, si, d)
            == (forall t :: slots[si].start <= t < slots[si].start + d ==> Covered(line, slots, t))
  {
    if Fits(line, slots, si, d) {
      forall t | slots[si].start <= t < slots[si].start + d ensures Covered(line, slots, t) {
        FitsIsSound(line, slots, si, d, t);
      }
    } else if forall t :: slots[si].start <= t < slots[si].start + d ==> Covered(line, slots, t) {
      assert Covered(line, slots, slots[si].start);
      CoverageExtends(line, slots, si, si, d);
    }
  }

  lemma NoSkipping(slots: seq<Slot>)
    requires IsAxis(slots)
    ensures forall e, i :: 0 <= e && e + 1 < i < |slots| ==> slots[e].end < slots[i].start
  {
    forall e, i | 0 <= e && e + 1 < i < |slots| ensures slots[e].end < slots[i].start {
      assert slots[e].end <= slots[e + 1].start;
    }
  }

  /** Following the cover column by column. */
  lemma {:induction false} CoverageExtends(line: seq<State>, slots: seq<Slot>, si: nat, e: nat, d: int)
    requires IsAxis(slots) && si <= e < Width(line, slots) && d > 0
    requires forall t :: slots[si].start <= t < slots[si].start + d ==> Covered(line, slots, t)
    requires slots[e].start < slots[si].start + d
    requires Unbroken(line, slots, si, e)
    ensures Fits(line, slots, si, d)
    decreases |slots| - e
  {
    var need := slots[si].start + d;
    if slots[e].end < need {
      var t := slots[e].end;
      assert Covered(line, slots, t);
      NoSkipping(slots);
      var i :| 0 <= i < Width(line, slots) && Bookable(line[i]) && slots[i].start <= t < slots[i].end;
      assert i == e + 1;
      CoverageExtends(line, slots, si, e + 1, d);
    }
  }

  // ------------------------------------------------------------ stable order

  /** sort.SliceStable by key: x goes in front of everything not smaller. */
  function Insert(x: Alternative, s: seq<Alternative>, key: Alternative -> int): seq<Alternative>
  {
    if s == [] || key(x) <= key(s[0]) then [x] + s else [s[0]] + Insert(x, s[1..], key)
  }

  function Stable(s: seq<Alternative>, key: Alternative -> int): seq<Alternative>
  {
    if s == [] then [] else Insert(s[0], Stable(s[1..], key), key)
  }

  function Push(x: Alternative, keep: bool, s: seq<Alternative>): seq<Alternative>
  {
    if keep then [x] + s else s
  }

  /** The elements p selects, in order. */
  function Kept(s: seq<Alternative>, p: Alternative -> bool): seq<Alternative>
  {
    if s == [] then [] else Push(s[0], p(s[0]), Kept(s[1..], p))
  }

  ghost predicate Ordered(s: seq<Alternative>, key: Alternative -> int)
  {
    forall i, j :: 0 <= i < j < |s| ==> key(s[i]) <= key(s[j])
  }

  lemma {:induction false} InsertKeepsMembers(x: Alternative, s: seq<Alternative>, key: Alternative -> int)
    ensures multiset(Insert(x, s, key)) == multiset(s) + multiset{x}
  {
    if s != [] && key(x) > key(s[0]) {
      InsertKeepsMembers(x, s[1..], key);
      assert s == [s[0]] + s[1..];
    }
  }

  lemma {:induction false} InsertOrdered(x: Alternative, s: seq<Alternative>, key: Alternative -> int)
    requires Ordered(s, key)
    ensures Ordered(Insert(x, s, key), key)
  {
    if s != [] && key(x) > key(s[0]) {
      var rest := Insert(x, s[1..], key);
      InsertOrdered(x, s[1..], key);
      InsertKeepsMembers(x, s[1..], key);
      forall j | 0 <= j < |rest| ensures key(s[0]) <= key(rest[j]) {
        assert rest[j] in multiset(rest);
        assert rest[j] == x || rest[j] in s[1..];
      }
    }
  }

  lemma {:induction false} InsertKeepsTies(x: Alternative, s: seq<Alternative>, key: Alternative -> int, p: Alternative -> bool)
    requires forall a, b :: p(a) && p(b) ==> key(a) == key(b)
    ensures Kept(Insert(x, s, key), p) == Push(x, p(x), Kept(s, p))
  {
    if s == [] || key(x) <= key(s[0]) {
      assert ([x] + s)[1..] == s;
    } else {
      var rest := Insert(x, s[1..], key);
      InsertKeepsTies(x, s[1..], key, p);
      assert ([s[0]] + rest)[1..] == rest;
    }
  }

  /** A rearrangement, in order. */
  lemma {:induction false} StableOrdered(s: seq<Alternative>, key: Alternative -> int)
    ensures Ordered(Stable(s, key), key)
    ensures multiset(Stable(s, key)) == multiset(s)
  {
    if s != [] {
      StableOrdered(s[1..], key);
      InsertOrdered(s[0], Stable(s[1..], key), key);
      InsertKeepsMembers(s[0], Stable(s[1..], key), key);
      assert s == [s[0]] + s[1..];
    }
  }

  /** Elements with one key stay in the order they came. */
  lemma {:induction false} StableKeepsTies(s: seq<Alternative>, key: Alternative -> int, p: Alternative -> bool)
    requires forall a, b :: p(a) && p(b) ==> key(a) == key(b)
    ensures Kept(Stable(s, key), p) == Kept(s, p)
  {
    if s != [] {
      StableKeepsTies(s[1..], key, p);
      InsertKeepsTies(s[0], Stable(s[1..], key), key, p);
    }
  }

  lemma StableMembers(s: seq<Alternative>, key: Alternative -> int)
    ensures |Stable(s, key)| == |s| && forall a :: a in Stable(s, key) <==> a in s
  {
    StableOrdered(s, key);
    assert |multiset(Stable(s, key))| == |multiset(s)|;
    forall a ensures a in Stable(s, key) <==> a in s {
      assert a in multiset(Stable(s, key)) <==> a in multiset(s);
    }
  }

  // -------------------------------------------------------------------- merge

  function Least(a: int, b: int): int
  {
    if a < b then a else b
  }

  /** Two of the first list, then the second list, then the rest of the first, three in all. */
  function Merged(here: seq<Alternative>, elsewhere: seq<Alternative>): seq<Alternative>
  {
    var h := Least(|here|, MAX_SAME);
    var e := Least(|elsewhere|, MAX_ALTERNATIVES - h);
    var t := Least(|here| - h, MAX_ALTERNATIVES - h - e);
    here[..h] + elsewhere[..e] + here[h..h + t]
  }

  method Merge(here: seq<Alternative>, elsewhere: seq<Alternative>) returns (out: seq<Alternative>)
    ensures out == Merged(here, elsewhere)
  {
    var head := here;
    if |head| > MAX_SAME {
      head := head[..MAX_SAME];
    }
    out := head;
    var i := 0;
    while i < |elsewhere| && |out| < MAX_ALTERNATIVES
      invariant 0 <= i <= |elsewhere|
      invariant |out| <= MAX_ALTERNATIVES && out == head + elsewhere[..i]
    {
      out := out + [elsewhere[i]];
      i := i + 1;
    }
    var rest := here[|head|..];
    var j := 0;
    while j < |rest| && |out| < MAX_ALTERNATIVES
      invariant 0 <= j <= |rest|
      invariant |out| <= MAX_ALTERNATIVES && out == head + elsewhere[..i] + rest[..j]
      invariant j > 0 ==> i == |elsewhere|
    {
      out := out + [rest[j]];
      j := j + 1;
    }
    assert rest[..j] == here[|head|..|head| + j];
  }

  function Top(s: seq<Alternative>): seq<Alternative>
  {
    s[..Least(|s|, MAX_ALTERNATIVES)]
  }

  /** Merging the first three of each list is merging the lists. */
  lemma ThreeOfEachSuffice(here: seq<Alternative>, elsewhere: seq<Alternative>)
    ensures Merged(Top(here), Top(elsewhere)) == Merged(here, elsewhere)
  {
    var h := Least(|here|, MAX_SAME);
    assert Top(here)[..h] == here[..h];
    var e := Least(|elsewhere|, MAX_ALTERNATIVES - h);
    assert Top(elsewhere)[..e] == elsewhere[..e];
    var t := Least(|here| - h, MAX_ALTERNATIVES - h - e);
    assert Top(here)[h..h + t] == here[h..h + t];
  }

  const IsLater: Alternative -> bool := (a: Alternative) => a.kind == LaterHere
  const IsElsewhere: Alternative -> bool := (a: Alternative) => a.kind == Elsewhere

  ghost predicate All(s: seq<Alternative>, p: Alternative -> bool)
  {
    forall i :: 0 <= i < |s| ==> p(s[i])
  }

  ghost predicate None(s: seq<Alternative>, p: Alternative -> bool)
  {
    forall i :: 0 <= i < |s| ==> !p(s[i])
  }

  lemma {:induction false} KeptAll(a: seq<Alternative>, b: seq<Alternative>, p: Alternative -> bool)
    requires All(a, p)
    ensures Kept(a + b, p) == a + Kept(b, p)
  {
    if a == [] {
      assert a + b == b;
    } else {
      KeptAll(a[1..], b, p);
      assert (a + b)[1..] == a[1..] + b;
      assert [a[0]] + (a[1..] + Kept(b, p)) == a + Kept(b, p);
    }
  }

  lemma {:induction false} KeptNone(a: seq<Alternative>, b: seq<Alternative>, p: Alternative -> bool)
    requires None(a, p)
    ensures Kept(a + b, p) == Kept(b, p)
  {
    if a == [] {
      assert a + b == b;
    } else {
      KeptNone(a[1..], b, p);
      assert (a + b)[1..] == a[1..] + b;
    }
  }

  lemma MergedParts(here: seq<Alternative>, elsewhere: seq<Alternative>)
    returns (a: seq<Alternative>, b: seq<Alternative>, c: seq<Alternative>)
    ensures Merged(here, elsewhere) == a + (b + c)
    ensures |a| + |c| <= |here| && a + c == here[..|a| + |c|] && |a| == Least(|here|, MAX_SAME)
    ensures |b| <= |elsewhere| && b == elsewhere[..|b|] && (elsewhere != [] ==> b != [])
    ensures |a| + |b| + |c| == Least(MAX_ALTERNATIVES, |here| + |elsewhere|)
  {
    var h := Least(|here|, MAX_SAME);
    var e := Least(|elsewhere|, MAX_ALTERNATIVES - h);
    var t := Least(|here| - h, MAX_ALTERNATIVES - h - e);
    a, b, c := here[..h], elsewhere[..e], here[h..h + t];
    assert a + b + c == a + (b + c);
  }

  lemma KindsApart(a: seq<Alternative>, b: seq<Alternative>, c: seq<Alternative>)
    requires All(a, IsLater) && All(b, IsElsewhere) && All(c, IsLater)
    ensures Kept(a + (b + c), IsLater) == a + c
    ensures Kept(a + (b + c), IsElsewhere) == b
  {
    KeptAll(a, b + c, IsLater);
    KeptNone(b, c, IsLater);
    KeptAll(c, [], IsLater);
    assert c + [] == c;
    KeptNone(a, b + c, IsElsewhere);
    KeptAll(b, c, IsElsewhere);
    KeptNone(c, [], IsElsewhere);
  }

  /** The merged list is as long as it can be, keeps the order of both lists, opens with the
      lost court's first, and gives another court a place whenever there is one. */
  lemma MergeIsFair(here: seq<Alternative>, elsewhere: seq<Alternative>)
    requires All(here, IsLater) && All(elsewhere, IsElsewhere)
    ensures var out := Merged(here, elsewhere);
            var a, b := |Kept(out, IsLater)|, |Kept(out, IsElsewhere)|;
            && |out| == a + b == Least(MAX_ALTERNATIVES, |here| + |elsewhere|)
            && a <= |here| && Kept(out, IsLater) == here[..a]
            && b <= |elsewhere| && Kept(out, IsElsewhere) == elsewhere[..b]
            && (here != [] ==> out[0] == here[0])
            && (elsewhere != [] ==> b >= 1)
            && a >= Least(|here|, MAX_SAME)
  {
    var a, b, c := MergedParts(here, elsewhere);
    forall i | 0 <= i < |a| + |c| ensures IsLater((a + c)[i]) {
      assert (a + c)[i] == here[i];
    }
    forall i | 0 <= i < |c| ensures IsLater(c[i]) {
      assert c[i] == (a + c)[|a| + i];
    }
    forall i | 0 <= i < |a| ensures IsLater(a[i]) {
      assert a[i] == (a + c)[i];
    }
    KindsApart(a, b, c);
    assert here != [] ==> (a + c)[0] == here[0];
  }

  lemma FirstElsewhere(here: seq<Alternative>, elsewhere: seq<Alternative>)
    requires elsewhere != []
    ensures elsewhere[0] in Merged(here, elsewhere)
  {
    assert Merged(here, elsewhere)[Least(|here|, MAX_SAME)] == elsewhere[0];
  }

  // ------------------------------------------------------------- the warm scan

  function Rows(g: Campus): nat
  {
    if |g.cells| < |g.courts| then |g.cells| else |g.courts|
  }

  function Later(g: Campus, req: Request, fi: nat, si: nat): Alternative
    requires fi < |g.courts| && si < |g.slots|
  {
    var c := g.courts[fi];
    Alternative(c.id, c.name, c.sport, g.slots[si].start, g.slots[si].start + req.duration, LaterHere)
  }

  function SameTime(g: Campus, req: Request, fi: nat): Alternative
    requires fi < |g.courts|
  {
    var c := g.courts[fi];
    Alternative(c.id, c.name, c.sport, req.start, req.start + req.duration, Elsewhere)
  }

  /** Column si of row fi answers the first question. */
  ghost predicate AnswersLater(g: Campus, req: Request, fi: nat, si: nat)
  {
    && fi < Rows(g) && si < |g.slots| && g.courts[fi].id == req.court
    && g.slots[si].start > req.start && Fits(g.cells[fi], g.slots, si, req.duration)
  }

  /** Row fi answers the second. */
  ghost predicate AnswersElsewhere(g: Campus, req: Request, fi: nat)
  {
    && fi < Rows(g) && g.courts[fi].id != req.court && g.courts[fi].sport == req.sport
    && Fits(g.cells[fi], g.slots, FirstColumn(g.slots, req.start), req.duration)
  }

  ghost function LaterIn(g: Campus, req: Request, fi: nat, m: nat): seq<Alternative>
    requires fi < |g.courts| && m <= |g.slots|
  {
    if m == 0 then [] else LaterIn(g, req, fi, m - 1) + LaterAt(g, req, fi, m - 1)
  }

  ghost function LaterAt(g: Campus, req: Request, fi: nat, si: nat): (s: seq<Alternative>)
    requires fi < |g.courts| && si < |g.slots|
  {
    if AnswersLater(g, req, fi, si) then [Later(g, req, fi, si)] else []
  }

  ghost function AllLater(g: Campus, req: Request, n: nat): seq<Alternative>
    requires n <= Rows(g)
  {
    if n == 0 then [] else AllLater(g, req, n - 1) + LaterIn(g, req, n - 1, |g.slots|)
  }

  ghost function AllElsewhere(g: Campus, req: Request, n: nat): seq<Alternative>
    requires n <= Rows(g)
  {
    if n == 0 then []
    else AllElsewhere(g, req, n - 1) + (if AnswersElsewhere(g, req, n - 1) then [SameTime(g, req, n - 1)] else [])
  }

  function FirstColumn(slots: seq<Slot>, t: Instant): int
  {
    FirstColumnFrom(slots, t, 0)
  }

  function FirstColumnFrom(slots: seq<Slot>, t: Instant, k: nat): (c: int)
    requires k <= |slots|
    ensures c == -1 || k <= c < |slots|
    ensures c == -1 ==> forall i :: k <= i < |slots| ==> slots[i].start != t
    ensures c != -1 ==> slots[c].start == t && forall i :: k <= i < c ==> slots[i].start != t
    decreases |slots| - k
  {
    if k == |slots| then -1 else if slots[k].start == t then k else FirstColumnFrom(slots, t, k + 1)
  }

  method SlotIndex(slots: seq<Slot>, t: Instant) returns (c: int)
    ensures c == FirstColumn(slots, t)
  {
    var i := 0;
    while i < |slots|
      invariant 0 <= i <= |slots| && forall k :: 0 <= k < i ==> slots[k].start != t
    {
      if slots[i].start == t {
        return i;
      }
      i := i + 1;
    }
    return -1;
  }

  const ByStart: Alternative -> int := (a: Alternative) => a.start
  const ByName: Alternative -> int := (a: Alternative) => a.name

  ghost function Suggested(g: Campus, req: Request): seq<Alternative>
  {
    Merged(Stable(AllLater(g, req, Rows(g)), ByStart), Stable(AllElsewhere(g, req, Rows(g)), ByName))
  }

  method LaterStart(g: Campus, req: Request, fi: nat, si: nat) returns (found: seq<Alternative>)
    requires fi < Rows(g) && g.courts[fi].id == req.court && si < |g.slots|
    ensures found == LaterAt(g, req, fi, si)
  {
    found := [];
    if g.slots[si].start > req.start {
      var free := RunFree(g.cells[fi], g.slots, si, req.duration);
      if free {
        found := [Later(g, req, fi, si)];
      }
    }
  }

  method LaterStarts(g: Campus, req: Request, fi: nat) returns (here: seq<Alternative>)
    requires fi < Rows(g) && g.courts[fi].id == req.court
    ensures here == LaterIn(g, req, fi, |g.slots|)
  {
    here := [];
    var si := 0;
    while si < |g.slots|
      invariant 0 <= si <= |g.slots|
      invariant here == LaterIn(g, req, fi, si)
    {
      var next := LaterStart(g, req, fi, si);
      assert LaterIn(g, req, fi, si + 1) == LaterIn(g, req, fi, si) + LaterAt(g, req, fi, si);
      here := here + next;
      si := si + 1;
    }
  }

  method FromGrid(g: Campus, req: Request) returns (out: seq<Alternative>)
    ensures out == Suggested(g, req)
  {
    var here: seq<Alternative>, elsewhere: seq<Alternative> := [], [];
    var fi := 0;
    while fi < |g.courts| && fi < |g.cells|
      invariant 0 <= fi <= Rows(g)
      invariant here == AllLater(g, req, fi) && elsewhere == AllElsewhere(g, req, fi)
    {
      var court := g.courts[fi];
      if court.id == req.court {
        var later := LaterStarts(g, req, fi);
        here := here + later;
      } else {
        NoneLater(g, req, fi, |g.slots|);
        if court.sport == req.sport {
          var si := SlotIndex(g.slots, req.start);
          var free := RunFree(g.cells[fi], g.slots, si, req.duration);
          if si >= 0 && free {
            elsewhere := elsewhere + [SameTime(g, req, fi)];
          }
        }
      }
      fi := fi + 1;
    }
    out := Merge(Stable(here, ByStart), Stable(elsewhere, ByName));
  }

  lemma {:induction false} NoneLater(g: Campus, req: Request, fi: nat, m: nat)
    requires fi < |g.courts| && m <= |g.slots| && g.courts[fi].id != req.court
    ensures LaterIn(g, req, fi, m) == []
  {
    if m > 0 {
      NoneLater(g, req, fi, m - 1);
    }
  }

  // ----------------------------------------------------------- what it suggests

  /** Every element of the first list answers the first question, and every answer is in it. */
  lemma {:induction false} LaterInSound(g: Campus, req: Request, fi: nat, m: nat, k: nat) returns (si: nat)
    requires fi < |g.courts| && m <= |g.slots| && k < |LaterIn(g, req, fi, m)|
    ensures si < m && AnswersLater(g, req, fi, si) && LaterIn(g, req, fi, m)[k] == Later(g, req, fi, si)
  {
    var before := LaterIn(g, req, fi, m - 1);
    assert LaterIn(g, req, fi, m) == before + LaterAt(g, req, fi, m - 1);
    if k < |before| {
      si := LaterInSound(g, req, fi, m - 1, k);
    } else {
      si := m - 1;
    }
  }

  lemma {:induction false} LaterInComplete(g: Campus, req: Request, fi: nat, m: nat, si: nat) returns (k: nat)
    requires fi < |g.courts| && si < m <= |g.slots| && AnswersLater(g, req, fi, si)
    ensures k < |LaterIn(g, req, fi, m)| && LaterIn(g, req, fi, m)[k] == Later(g, req, fi, si)
  {
    if si == m - 1 {
      k := |LaterIn(g, req, fi, m - 1)|;
    } else {
      k := LaterInComplete(g, req, fi, m - 1, si);
    }
  }

  lemma {:induction false} AllLaterSound(g: Campus, req: Request, n: nat, k: nat) returns (fi: nat, si: nat)
    requires n <= Rows(g) && k < |AllLater(g, req, n)|
    ensures fi < n && AnswersLater(g, req, fi, si) && AllLater(g, req, n)[k] == Later(g, req, fi, si)
  {
    var m := |AllLater(g, req, n - 1)|;
    if k < m {
      fi, si := AllLaterSound(g, req, n - 1, k);
    } else {
      fi := n - 1;
      si := LaterInSound(g, req, fi, |g.slots|, k - m);
    }
  }

  lemma {:induction false} AllLaterComplete(g: Campus, req: Request, n: nat, fi: nat, si: nat) returns (k: nat)
    requires fi < n <= Rows(g) && AnswersLater(g, req, fi, si)
    ensures k < |AllLater(g, req, n)| && AllLater(g, req, n)[k] == Later(g, req, fi, si)
  {
    var before, last := AllLater(g, req, n - 1), LaterIn(g, req, n - 1, |g.slots|);
    assert AllLater(g, req, n) == before + last;
    if fi == n - 1 {
      k := LaterInComplete(g, req, fi, |g.slots|, si);
      k := |before| + k;
    } else {
      k := AllLaterComplete(g, req, n - 1, fi, si);
    }
  }

  lemma {:induction false} AllElsewhereSound(g: Campus, req: Request, n: nat, k: nat) returns (fi: nat)
    requires n <= Rows(g) && k < |AllElsewhere(g, req, n)|
    ensures fi < n && AnswersElsewhere(g, req, fi) && AllElsewhere(g, req, n)[k] == SameTime(g, req, fi)
  {
    if k < |AllElsewhere(g, req, n - 1)| {
      fi := AllElsewhereSound(g, req, n - 1, k);
    } else {
      fi := n - 1;
    }
  }

  lemma {:induction false} AllElsewhereComplete(g: Campus, req: Request, n: nat, fi: nat) returns (k: nat)
    requires fi < n <= Rows(g) && AnswersElsewhere(g, req, fi)
    ensures k < |AllElsewhere(g, req, n)| && AllElsewhere(g, req, n)[k] == SameTime(g, req, fi)
  {
    if fi == n - 1 {
      k := |AllElsewhere(g, req, n - 1)|;
    } else {
      k := AllElsewhereComplete(g, req, n - 1, fi);
    }
  }

  /** An element of the sorted first list, traced back to its cell. */
  lemma HereSound(g: Campus, req: Request, a: Alternative) returns (fi: nat, si: nat)
    requires a in Stable(AllLater(g, req, Rows(g)), ByStart)
    ensures AnswersLater(g, req, fi, si) && a == Later(g, req, fi, si)
  {
    var all := AllLater(g, req, Rows(g));
    StableMembers(all, ByStart);
    var k :| 0 <= k < |all| && all[k] == a;
    fi, si := AllLaterSound(g, req, Rows(g), k);
  }

  lemma ElsewhereSound(g: Campus, req: Request, a: Alternative) returns (fi: nat)
    requires a in Stable(AllElsewhere(g, req, Rows(g)), ByName)
    ensures AnswersElsewhere(g, req, fi) && a == SameTime(g, req, fi)
  {
    var all := AllElsewhere(g, req, Rows(g));
    StableMembers(all, ByName);
    var k :| 0 <= k < |all| && all[k] == a;
    fi := AllElsewhereSound(g, req, Rows(g), k);
  }

  lemma MergedMembers(here: seq<Alternative>, elsewhere: seq<Alternative>, a: Alternative)
    requires a in Merged(here, elsewhere)
    ensures a in here || a in elsewhere
  {
  }

  /** Every suggestion answers one of the two questions, and no moment of it lies outside the
      bookable cells of its own court's row. */
  lemma SuggestionsAreBookable(g: Campus, req: Request, a: Alternative, t: Instant) returns (fi: nat)
    requires a in Suggested(g, req) && a.start <= t < a.end
    ensures fi < Rows(g) && g.courts[fi].id == a.court && Covered(g.cells[fi], g.slots, t)
    ensures a.end == a.start + req.duration
    ensures match a.kind
            case LaterHere => a.court == req.court && a.start > req.start
            case Elsewhere => a.court != req.court && g.courts[fi].sport == req.sport && a.start == req.start
  {
    var here, elsewhere := Stable(AllLater(g, req, Rows(g)), ByStart), Stable(AllElsewhere(g, req, Rows(g)), ByName);
    MergedMembers(here, elsewhere, a);
    if a in here {
      var si;
      fi, si := HereSound(g, req, a);
      FitsIsSound(g.cells[fi], g.slots, si, req.duration, t);
    } else {
      fi := ElsewhereSound(g, req, a);
      FitsIsSound(g.cells[fi], g.slots, FirstColumn(g.slots, req.start), req.duration, t);
    }
  }

  lemma ListsHaveTheirKinds(g: Campus, req: Request)
    ensures All(Stable(AllLater(g, req, Rows(g)), ByStart), IsLater)
    ensures All(Stable(AllElsewhere(g, req, Rows(g)), ByName), IsElsewhere)
  {
    var here, elsewhere := Stable(AllLater(g, req, Rows(g)), ByStart), Stable(AllElsewhere(g, req, Rows(g)), ByName);
    forall i | 0 <= i < |here| ensures IsLater(here[i]) {
      var fi, si := HereSound(g, req, here[i]);
    }
    forall i | 0 <= i < |elsewhere| ensures IsElsewhere(elsewhere[i]) {
      var fi := ElsewhereSound(g, req, elsewhere[i]);
    }
  }

  lemma KindIsCourt(g: Campus, req: Request, a: Alternative)
    requires a in Suggested(g, req)
    ensures a.kind == LaterHere <==> a.court == req.court
  {
    var here, elsewhere := Stable(AllLater(g, req, Rows(g)), ByStart), Stable(AllElsewhere(g, req, Rows(g)), ByName);
    MergedMembers(here, elsewhere, a);
    if a in here {
      var fi, si := HereSound(g, req, a);
    } else {
      var fi := ElsewhereSound(g, req, a);
    }
  }

  /** What a warm scan returns: min(3, all answers) suggestions; those on the lost court are
      its nearest later starts in order, at least two of them if there are two, and come
      first; those elsewhere are the first by name, at least one of them if there is one. */
  lemma SuggestedIsFair(g: Campus, req: Request)
    ensures var out := Suggested(g, req);
            var here, elsewhere := Stable(AllLater(g, req, Rows(g)), ByStart), Stable(AllElsewhere(g, req, Rows(g)), ByName);
            var a, b := |Kept(out, IsLater)|, |Kept(out, IsElsewhere)|;
            && |out| == a + b == Least(MAX_ALTERNATIVES, |AllLater(g, req, Rows(g))| + |AllElsewhere(g, req, Rows(g))|)
            && a <= |here| && Kept(out, IsLater) == here[..a]
            && b <= |elsewhere| && Kept(out, IsElsewhere) == elsewhere[..b]
            && (here != [] ==> out[0].court == req.court)
            && (elsewhere != [] ==> b >= 1)
            && a >= Least(|here|, MAX_SAME)
    ensures forall x :: x in Suggested(g, req) ==> (x.kind == LaterHere <==> x.court == req.court)
  {
    var here, elsewhere := Stable(AllLater(g, req, Rows(g)), ByStart), Stable(AllElsewhere(g, req, Rows(g)), ByName);
    ListsHaveTheirKinds(g, req);
    MergeIsFair(here, elsewhere);
    StableMembers(AllLater(g, req, Rows(g)), ByStart);
    StableMembers(AllElsewhere(g, req, Rows(g)), ByName);
    forall x | x in Suggested(g, req) ensures x.kind == LaterHere <==> x.court == req.court {
      KindIsCourt(g, req, x);
    }
    if here != [] {
      var fi, si := HereSound(g, req, here[0]);
    }
  }

  /** Element k of a list is never ahead of the first of its sorted form. */
  lemma FirstIsLeast(s: seq<Alternative>, key: Alternative -> int, k: nat)
    requires k < |s|
    ensures Stable(s, key) != [] && key(Stable(s, key)[0]) <= key(s[k])
  {
    StableOrdered(s, key);
    StableMembers(s, key);
    assert s[k] in Stable(s, key);
    var j :| 0 <= j < |Stable(s, key)| && Stable(s, key)[j] == s[k];
  }

  /** If the lost court has a bookable later start, the list opens with one, and no bookable
      later start precedes it. */
  lemma NearestLaterFirst(g: Campus, req: Request, fi: nat, si: nat)
    requires AnswersLater(g, req, fi, si)
    ensures var out := Suggested(g, req);
            out != [] && out[0].kind == LaterHere && out[0].court == req.court && out[0].start <= g.slots[si].start
  {
    var all := AllLater(g, req, Rows(g));
    var k := AllLaterComplete(g, req, Rows(g), fi, si);
    FirstIsLeast(all, ByStart, k);
    var here := Stable(all, ByStart);
    var f, s := HereSound(g, req, here[0]);
    assert Suggested(g, req)[0] == here[0];
  }

  /** A court that is free at the lost time is never crowded out by later starts. */
  lemma ElsewhereIsRepresented(g: Campus, req: Request, fi: nat)
    requires AnswersElsewhere(g, req, fi)
    ensures exists a :: a in Suggested(g, req) && a.kind == Elsewhere && a.name <= g.courts[fi].name
  {
    var all := AllElsewhere(g, req, Rows(g));
    var k := AllElsewhereComplete(g, req, Rows(g), fi);
    FirstIsLeast(all, ByName, k);
    var elsewhere := Stable(all, ByName);
    FirstElsewhere(Stable(AllLater(g, req, Rows(g)), ByStart), elsewhere);
    var f := ElsewhereSound(g, req, elsewhere[0]);
  }

  /** Nothing is suggested exactly when nothing answers either question. */
  lemma SilentIffNothingAnswers(g: Campus, req: Request)
    ensures Suggested(g, req) == []
            <==> (forall fi, si :: !AnswersLater(g, req, fi, si)) && (forall fi :: !AnswersElsewhere(g, req, fi))
  {
    if Suggested(g, req) == [] {
      forall fi, si ensures !AnswersLater(g, req, fi, si) {
        if AnswersLater(g, req, fi, si) {
          NearestLaterFirst(g, req, fi, si);
        }
      }
      forall fi ensures !AnswersElsewhere(g, req, fi) {
        if AnswersElsewhere(g, req, fi) {
          ElsewhereIsRepresented(g, req, fi);
        }
      }
    } else {
      var a := Suggested(g, req)[0];
      var here, elsewhere := Stable(AllLater(g, req, Rows(g)), ByStart), Stable(AllElsewhere(g, req, Rows(g)), ByName);
      MergedMembers(here, elsewhere, a);
      if a in here {
        var fi, si := HereSound(g, req, a);
      } else {
        var fi := ElsewhereSound(g, req, a);
      }
    }
  }
}
