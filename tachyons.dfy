/**
 * Tachyon beams (2025/day7): beams fall one row at a time; a beam that meets
 * a splitter `^` continues from both neighbouring columns, any other beam
 * goes straight on. Beams in the same column merge, adding their timeline
 * counts.
 */
module Tachyons {
  import opened Wrappers
  import opened MapSums

  /** Column `loc` of the row holds a splitter. */
  predicate Splitter(row: string, loc: nat)
  {
    loc < |row| && row[loc] == '^'
  }

  /** `splitter_locs`: the columns holding `^`, left to right. */
  function SplitterLocs(row: string): (locs: seq<nat>)
    ensures forall loc :: loc in locs <==> Splitter(row, loc)
    ensures forall i, j :: 0 <= i < j < |locs| ==> locs[i] < locs[j]
    ensures forall i :: 0 <= i < |locs| ==> locs[i] < |row|
  {
    if |row| == 0 then []
    else
      var init := SplitterLocs(row[..|row| - 1]);
      assert forall loc: nat :: loc < |row| - 1 ==> row[..|row| - 1][loc] == row[loc];
      if row[|row| - 1] == '^' then init + [|row| - 1] else init
  }

  /** An `entry(k).and_modify(+= c).or_insert(c)`: add `c` to the count at `k`. */
  function Deposit(m: map<nat, nat>, k: nat, c: nat): (r: map<nat, nat>)
    ensures forall x :: x in r <==> x in m || x == k
    ensures forall x :: x in r ==> r[x] == (if x in m then m[x] else 0) + (if x == k then c else 0)
  {
    m[k := (if k in m then m[k] else 0) + c]
  }

  lemma DepositSum(m: map<nat, nat>, k: nat, c: nat)
    ensures Sum(Deposit(m, k, c)) == Sum(m) + c
  {
    SumUpdate(m, k, (if k in m then m[k] else 0) + c);
  }

  /** The beams of `tachyons` at the locations in `done`. */
  function Restrict(tachyons: map<nat, nat>, done: set<nat>): (r: map<nat, nat>)
    ensures forall x :: x in r <==> x in tachyons && x in done
  {
    map x | x in tachyons && x in done :: tachyons[x]
  }

  /** The locations in `done` that hold a beam and sit on a splitter. */
  function SplitLocs(row: string, tachyons: map<nat, nat>, done: set<nat>): set<nat>
  {
    set loc | loc in done && loc in tachyons && Splitter(row, loc)
  }

  /** Some beam from `done` ends up at `x`: straight down, or split from a neighbour. */
  ghost predicate Reached(row: string, tachyons: map<nat, nat>, done: set<nat>, x: nat)
  {
    (x in done && x in tachyons && !Splitter(row, x))
    || (x >= 1 && x - 1 in done && x - 1 in tachyons && Splitter(row, x - 1))
    || (x + 1 in done && x + 1 in tachyons && Splitter(row, x + 1))
  }

  /** The total count the beams from `done` bring to `x`. */
  ghost function Incoming(row: string, tachyons: map<nat, nat>, done: set<nat>, x: nat): nat
  {
    (if x in done && x in tachyons && !Splitter(row, x) then tachyons[x] else 0)
    + (if x >= 1 && x - 1 in done && x - 1 in tachyons && Splitter(row, x - 1) then tachyons[x - 1] else 0)
    + (if x + 1 in done && x + 1 in tachyons && Splitter(row, x + 1) then tachyons[x + 1] else 0)
  }

  /** No beam sits on a splitter in column 0, where the source's `loc - 1` underflows. */
  predicate NoSplitAtZero(row: string, tachyons: map<nat, nat>)
  {
    !(0 in tachyons && Splitter(row, 0))
  }

  /** The columns at or next to an occupied column: where any beam can land. */
  function Near(keys: set<nat>): set<nat>
  {
    keys + (set k | k in keys :: k + 1) + (set k | k in keys && k >= 1 :: k - 1)
  }

  /** What the beams from `done` leave below the row: each reached column with its incoming count. */
  ghost function Arrivals(row: string, tachyons: map<nat, nat>, done: set<nat>): map<nat, nat>
  {
    map x | x in Near(tachyons.Keys) && Reached(row, tachyons, done, x) :: Incoming(row, tachyons, done, x)
  }

  /** A column holds beams afterwards exactly when some beam reaches it, and holds their total count. */
  lemma ArrivalsAt(row: string, tachyons: map<nat, nat>, done: set<nat>, x: nat)
    ensures x in Arrivals(row, tachyons, done) <==> Reached(row, tachyons, done, x)
    ensures x in Arrivals(row, tachyons, done) ==> Arrivals(row, tachyons, done)[x] == Incoming(row, tachyons, done, x)
  {
    if x >= 1 && x - 1 in tachyons {
      assert (x - 1) + 1 in Near(tachyons.Keys);
    }
    if x + 1 in tachyons {
      assert (x + 1) - 1 in Near(tachyons.Keys);
    }
  }

  /** The running total: every beam seen so far once, and once more for each one that split. */
  ghost predicate Counted(row: string, tachyons: map<nat, nat>, done: set<nat>, m: map<nat, nat>)
  {
    Sum(m) == Sum(Restrict(tachyons, done)) + Sum(Restrict(tachyons, SplitLocs(row, tachyons, done)))
  }

  /**
   * `progress`: move every beam through one row, in whatever order the hash
   * map yields them, and count the beams that hit a splitter.
   */
  method Progress(row: string, tachyons: map<nat, nat>, splitCount: nat) returns (next: map<nat, nat>, splits: nat)
    requires NoSplitAtZero(row, tachyons)
    ensures next == Arrivals(row, tachyons, tachyons.Keys)
    ensures splits == splitCount + |SplitLocs(row, tachyons, tachyons.Keys)|
    ensures Sum(next) == Sum(tachyons) + Sum(Restrict(tachyons, SplitLocs(row, tachyons, tachyons.Keys)))
  {
    var splitterLocs := SplitterLocs(row);
    next := map[];
    splits := splitCount;
    var todo := tachyons.Keys;
    ghost var done: set<nat> := {};
    NothingMoved(row, tachyons);
    while todo != {}
      invariant done <= tachyons.Keys && todo == tachyons.Keys - done
      invariant next == Arrivals(row, tachyons, done)
      invariant splits == splitCount + |SplitLocs(row, tachyons, done)|
      invariant Counted(row, tachyons, done, next)
      decreases |todo|
    {
      var loc :| loc in todo;
      var count := tachyons[loc];
      ghost var before := next;
      if loc in splitterLocs {
        SplitAt(row, tachyons, loc);
        splits := splits + 1;
        next := Deposit(next, loc + 1, count);
        next := Deposit(next, loc - 1, count);
        SplitLands(row, tachyons, done, loc, before, next);
        SplitCounted(row, tachyons, done, loc, before, next);
        SplitLocsAdd(row, tachyons, done, loc);
      } else {
        next := Deposit(next, loc, count);
        StraightLands(row, tachyons, done, loc, before, next);
        StraightCounted(row, tachyons, done, loc, before, next);
        SplitLocsAdd(row, tachyons, done, loc);
      }
      Advance(tachyons.Keys, todo, done, loc);
      todo := todo - {loc};
      done := done + {loc};
    }
    Finished(tachyons.Keys, done);
    RestrictAll(tachyons);
  }

  /** Moving one location from the pending set to the visited set keeps them complementary. */
  lemma Advance(keys: set<nat>, todo: set<nat>, done: set<nat>, loc: nat)
    requires done <= keys && todo == keys - done && loc in todo
    ensures done + {loc} <= keys && todo - {loc} == keys - (done + {loc})
  {
  }

  /** With nothing pending, every location has been visited. */
  lemma Finished(keys: set<nat>, done: set<nat>)
    requires done <= keys && keys - done == {}
    ensures done == keys
  {
    forall x | x in keys ensures x in done {
      assert x !in keys - done;
    }
  }

  /** A listed splitter column holds a splitter, and it is not column 0. */
  lemma SplitAt(row: string, tachyons: map<nat, nat>, loc: nat)
    requires NoSplitAtZero(row, tachyons) && loc in tachyons && loc in SplitterLocs(row)
    ensures Splitter(row, loc) && loc >= 1
  {
  }

  lemma NothingMoved(row: string, tachyons: map<nat, nat>)
    ensures map[] == Arrivals(row, tachyons, {})
    ensures Counted(row, tachyons, {}, map[])
    ensures SplitLocs(row, tachyons, {}) == {}
  {
    assert Restrict(tachyons, {}) == map[];
    assert SplitLocs(row, tachyons, {}) == {};
  }

  lemma RestrictAll(tachyons: map<nat, nat>)
    ensures Restrict(tachyons, tachyons.Keys) == tachyons
  {
  }

  /** Taking one more location into `done` adds its beam to the restricted sum. */
  lemma RestrictAdd(tachyons: map<nat, nat>, done: set<nat>, loc: nat)
    requires loc in tachyons && loc !in done
    ensures Sum(Restrict(tachyons, done + {loc})) == Sum(Restrict(tachyons, done)) + tachyons[loc]
  {
    assert Restrict(tachyons, done + {loc}) == Restrict(tachyons, done)[loc := tachyons[loc]];
    SumUpdateAbsent(Restrict(tachyons, done), loc, tachyons[loc]);
  }

  /** Whether the beam at `loc` lands on `x`. */
  predicate Touches(row: string, loc: nat, x: nat)
  {
    if Splitter(row, loc) then x == loc + 1 || x + 1 == loc else x == loc
  }

  /** Taking the beam at `loc` into account adds its count wherever it lands. */
  lemma IncomingAdd(row: string, tachyons: map<nat, nat>, done: set<nat>, loc: nat, x: nat)
    requires loc in tachyons && loc !in done
    ensures Reached(row, tachyons, done + {loc}, x) <==> Reached(row, tachyons, done, x) || Touches(row, loc, x)
    ensures Incoming(row, tachyons, done + {loc}, x)
            == Incoming(row, tachyons, done, x) + (if Touches(row, loc, x) then tachyons[loc] else 0)
  {
  }

  /** Adding the beam at `loc` to every location it touches moves it. */
  lemma Lands(row: string, tachyons: map<nat, nat>, done: set<nat>, loc: nat, before: map<nat, nat>, after: map<nat, nat>)
    requires loc in tachyons && loc !in done && before == Arrivals(row, tachyons, done)
    requires forall x :: x in after <==> x in before || Touches(row, loc, x)
    requires forall x :: x in after ==>
               after[x] == (if x in before then before[x] else 0) + (if Touches(row, loc, x) then tachyons[loc] else 0)
    ensures after == Arrivals(row, tachyons, done + {loc})
  {
    var post := Arrivals(row, tachyons, done + {loc});
    forall x: nat ensures (x in after <==> x in post) && (x in after ==> after[x] == post[x]) {
      ArrivalsAt(row, tachyons, done, x);
      ArrivalsAt(row, tachyons, done + {loc}, x);
      IncomingAdd(row, tachyons, done, loc, x);
    }
  }

  lemma SplitLands(row: string, tachyons: map<nat, nat>, done: set<nat>, loc: nat, before: map<nat, nat>, after: map<nat, nat>)
    requires loc in tachyons && loc !in done && Splitter(row, loc) && loc >= 1
    requires before == Arrivals(row, tachyons, done)
    requires after == Deposit(Deposit(before, loc + 1, tachyons[loc]), loc - 1, tachyons[loc])
    ensures after == Arrivals(row, tachyons, done + {loc})
  {
    Lands(row, tachyons, done, loc, before, after);
  }

  lemma StraightLands(row: string, tachyons: map<nat, nat>, done: set<nat>, loc: nat, before: map<nat, nat>, after: map<nat, nat>)
    requires loc in tachyons && loc !in done && !Splitter(row, loc)
    requires before == Arrivals(row, tachyons, done)
    requires after == Deposit(before, loc, tachyons[loc])
    ensures after == Arrivals(row, tachyons, done + {loc})
  {
    Lands(row, tachyons, done, loc, before, after);
  }

  /** Visiting `loc` adds it to the split locations exactly when it holds a splitter. */
  lemma SplitLocsAdd(row: string, tachyons: map<nat, nat>, done: set<nat>, loc: nat)
    requires loc in tachyons && loc !in done
    ensures loc !in SplitLocs(row, tachyons, done)
    ensures SplitLocs(row, tachyons, done + {loc})
            == if Splitter(row, loc) then SplitLocs(row, tachyons, done) + {loc} else SplitLocs(row, tachyons, done)
    ensures |SplitLocs(row, tachyons, done + {loc})| == |SplitLocs(row, tachyons, done)| + (if Splitter(row, loc) then 1 else 0)
  {
    if Splitter(row, loc) {
      assert SplitLocs(row, tachyons, done + {loc}) == SplitLocs(row, tachyons, done) + {loc};
    } else {
      assert SplitLocs(row, tachyons, done + {loc}) == SplitLocs(row, tachyons, done);
    }
  }

  /** A beam that goes straight adds its count once; one that splits adds it twice. */
  lemma CountedStep(row: string, tachyons: map<nat, nat>, done: set<nat>, loc: nat, before: map<nat, nat>, after: map<nat, nat>)
    requires loc in tachyons && loc !in done && Counted(row, tachyons, done, before)
    requires Sum(after) == Sum(before) + (if Splitter(row, loc) then 2 * tachyons[loc] else tachyons[loc])
    ensures Counted(row, tachyons, done + {loc}, after)
  {
    SplitLocsAdd(row, tachyons, done, loc);
    RestrictAdd(tachyons, done, loc);
    if Splitter(row, loc) {
      RestrictAdd(tachyons, SplitLocs(row, tachyons, done), loc);
    }
  }

  lemma SplitCounted(row: string, tachyons: map<nat, nat>, done: set<nat>, loc: nat, before: map<nat, nat>, after: map<nat, nat>)
    requires loc in tachyons && loc !in done && Splitter(row, loc) && loc >= 1
    requires Counted(row, tachyons, done, before)
    requires after == Deposit(Deposit(before, loc + 1, tachyons[loc]), loc - 1, tachyons[loc])
    ensures Counted(row, tachyons, done + {loc}, after)
  {
    DepositSum(before, loc + 1, tachyons[loc]);
    DepositSum(Deposit(before, loc + 1, tachyons[loc]), loc - 1, tachyons[loc]);
    CountedStep(row, tachyons, done, loc, before, after);
  }

  lemma StraightCounted(row: string, tachyons: map<nat, nat>, done: set<nat>, loc: nat, before: map<nat, nat>, after: map<nat, nat>)
    requires loc in tachyons && loc !in done && !Splitter(row, loc)
    requires Counted(row, tachyons, done, before)
    requires after == Deposit(before, loc, tachyons[loc])
    ensures Counted(row, tachyons, done + {loc}, after)
  {
    DepositSum(before, loc, tachyons[loc]);
    CountedStep(row, tachyons, done, loc, before, after);
  }

  /** The first row: one beam with one timeline at the column of the first `S`; no `S` panics. */
  function StartBeams(first: string): (r: Option<map<nat, nat>>)
    ensures r.Some? <==> 'S' in first
    ensures r.Some? ==> exists p :: 0 <= p < |first| && first[p] == 'S' && 'S' !in first[..p] && r.value == map[p := 1]
  {
    if |first| == 0 then None
    else if first[0] == 'S' then
      assert 'S' !in first[..0];
      Some(map[0 := 1])
    else
      match StartBeams(first[1..])
      case None =>
        assert first == [first[0]] + first[1..];
        None
      case Some(m) =>
        var p :| 0 <= p < |first| - 1 && first[1..][p] == 'S' && 'S' !in first[1..][..p] && m == map[p := 1];
        assert first[..p + 1] == [first[0]] + first[1..][..p];
        Some(map[p + 1 := 1])
  }
}
