/**
 * Button machines (2025/day10): a row of indicator lights, buttons that toggle
 * sets of lights, and per-light joltage requirements. Parsing one input line,
 * pressing a button, and the breadth-first search for the fewest presses that
 * light exactly the goal pattern.
 */
module ButtonMachine {
  import opened Wrappers
  import opened Text

  /** One machine; `buttons[b]` lists the light indices that button `b` touches. */
  datatype Machine = Machine(goal: seq<bool>, buttons: seq<seq<nat>>, joltageReqs: seq<nat>)

  /** Every light index a button names exists (otherwise pressing it panics). */
  predicate WellFormed(m: Machine)
  {
    forall b, k :: 0 <= b < |m.buttons| && 0 <= k < |m.buttons[b]| ==> m.buttons[b][k] < |m.goal|
  }

  // ===========================================================================
  // Parsing: `Machine::from`

  predicate IsGoalChar(c: char) { c == '.' || c == '#' || c == '[' || c == ']' }

  /** The lights of a goal field: `.` is off, `#` is on, brackets are skipped. */
  function GoalLights(field: string): seq<bool>
  {
    if |field| == 0 then []
    else if field[0] == '.' then [false] + GoalLights(field[1..])
    else if field[0] == '#' then [true] + GoalLights(field[1..])
    else GoalLights(field[1..])
  }

  /** The goal field; any character other than `.#[]` is a panic (`None`). */
  function ParseGoal(field: string): Option<seq<bool>>
  {
    if forall i :: 0 <= i < |field| ==> IsGoalChar(field[i]) then Some(GoalLights(field)) else None
  }

  const Brackets: set<char> := {'(', ')', '{', '}'}

  /** A button or joltage field: brackets removed, split on commas, each piece a `usize`. */
  function ParseIndexList(field: string): Option<seq<nat>>
  {
    ParseNats(Split(RemoveChars(field, Brackets), ","))
  }

  function ParseIndexLists(fields: seq<string>): (r: Option<seq<seq<nat>>>)
    ensures r.Some? ==> |r.value| == |fields|
  {
    if |fields| == 0 then Some([])
    else
      var head := ParseIndexList(fields[0]);
      var rest := ParseIndexLists(fields[1..]);
      if head.Some? && rest.Some? then Some([head.value] + rest.value) else None
  }

  /**
   * `Machine::from`: space-separated fields; the first is the goal, the last
   * the joltage list, the ones between the buttons. `None` where the source panics.
   */
  function ParseMachine(line: string): (r: Option<Machine>)
    ensures r.Some? ==> |r.value.buttons| == |Split(line, " ")| - 2
  {
    var fields := Split(line, " ");
    match (ParseGoal(fields[0]), ParseIndexLists(fields[1..]))
    case (Some(goal), Some(lists)) =>
      if |lists| == 0 then None
      else Some(Machine(goal, lists[..|lists| - 1], lists[|lists| - 1]))
    case _ => None
  }

  // ---------------------------------------------------------------------------
  // The input format, as the reference the parser is proved against.

  function GoalChars(goal: seq<bool>): (s: string)
    ensures |s| == |goal|
    ensures forall i :: 0 <= i < |s| ==> s[i] == '.' || s[i] == '#'
  {
    if |goal| == 0 then "" else [if goal[0] then '#' else '.'] + GoalChars(goal[1..])
  }

  function FormatGoal(goal: seq<bool>): string { "[" + GoalChars(goal) + "]" }

  function FormatIndexList(open: char, close: char, l: seq<nat>): string
    requires |l| >= 1
  {
    [open] + Join(ShowNats(l), ",") + [close]
  }

  function FormatButtons(buttons: seq<seq<nat>>): (r: seq<string>)
    requires forall b :: 0 <= b < |buttons| ==> |buttons[b]| >= 1
    ensures |r| == |buttons|
    ensures forall b :: 0 <= b < |r| ==> r[b] == FormatIndexList('(', ')', buttons[b])
  {
    if |buttons| == 0 then [] else [FormatIndexList('(', ')', buttons[0])] + FormatButtons(buttons[1..])
  }

  function MachineFields(m: Machine): (fields: seq<string>)
    requires forall b :: 0 <= b < |m.buttons| ==> |m.buttons[b]| >= 1
    requires |m.joltageReqs| >= 1
    ensures |fields| == |m.buttons| + 2
  {
    [FormatGoal(m.goal)] + (FormatButtons(m.buttons) + [FormatIndexList('{', '}', m.joltageReqs)])
  }

  /** A line as the puzzle writes it: `[.##.] (3) (1,3) {3,5,4,7}`. */
  function FormatMachine(m: Machine): string
    requires forall b :: 0 <= b < |m.buttons| ==> |m.buttons[b]| >= 1
    requires |m.joltageReqs| >= 1
  {
    Join(MachineFields(m), " ")
  }

  lemma {:induction false} GoalLightsOfChars(goal: seq<bool>)
    ensures GoalLights(GoalChars(goal) + "]") == goal
    decreases |goal|
  {
    if |goal| > 0 {
      var s := GoalChars(goal) + "]";
      assert s[1..] == GoalChars(goal[1..]) + "]";
      GoalLightsOfChars(goal[1..]);
      assert goal == [goal[0]] + goal[1..];
    } else {
      assert GoalChars(goal) + "]" == "]";
    }
  }

  lemma ParseFormatGoal(goal: seq<bool>)
    ensures ParseGoal(FormatGoal(goal)) == Some(goal)
  {
    var s := FormatGoal(goal);
    assert s[1..] == GoalChars(goal) + "]";
    GoalLightsOfChars(goal);
  }

  lemma ParseFormatIndexList(open: char, close: char, l: seq<nat>)
    requires open in Brackets && close in Brackets && |l| >= 1
    ensures ParseIndexList(FormatIndexList(open, close, l)) == Some(l)
  {
    var nums := ShowNats(l);
    var body := Join(nums, ",");
    forall c | c in Brackets ensures c !in body {
      JoinExcludes(nums, ",", c);
    }
    RemoveCharsAppend([open], body + [close], Brackets);
    RemoveCharsAppend(body, [close], Brackets);
    RemoveCharsNone(body, Brackets);
    assert RemoveChars([close], Brackets) == "";
    assert RemoveChars([open], Brackets) == "";
    assert [open] + body + [close] == [open] + (body + [close]);
    assert RemoveChars(FormatIndexList(open, close, l), Brackets) == body;
    SplitJoin(nums, ",");
    ParseShowNats(l);
  }

  lemma {:induction false} ParseFormatLists(buttons: seq<seq<nat>>, joltage: seq<nat>)
    requires forall b :: 0 <= b < |buttons| ==> |buttons[b]| >= 1
    requires |joltage| >= 1
    ensures ParseIndexLists(FormatButtons(buttons) + [FormatIndexList('{', '}', joltage)])
         == Some(buttons + [joltage])
    decreases |buttons|
  {
    var fields := FormatButtons(buttons) + [FormatIndexList('{', '}', joltage)];
    if |buttons| == 0 {
      ParseFormatIndexList('{', '}', joltage);
      assert fields == [FormatIndexList('{', '}', joltage)];
      assert fields[1..] == [];
      assert buttons + [joltage] == [joltage] + [];
    } else {
      var head := FormatIndexList('(', ')', buttons[0]);
      var rest := FormatButtons(buttons[1..]) + [FormatIndexList('{', '}', joltage)];
      assert fields == [head] + rest by {
        assert FormatButtons(buttons) == [head] + FormatButtons(buttons[1..]);
      }
      ParseFormatIndexList('(', ')', buttons[0]);
      ParseFormatLists(buttons[1..], joltage);
      ParseIndexListsCons(head, rest);
      ConsSnoc(buttons, joltage);
    }
  }

  lemma ConsSnoc<T>(xs: seq<T>, y: T)
    requires |xs| > 0
    ensures xs + [y] == [xs[0]] + (xs[1..] + [y])
  {
  }

  lemma ParseIndexListsCons(field: string, fields: seq<string>)
    ensures ParseIndexLists([field] + fields) ==
      if ParseIndexList(field).Some? && ParseIndexLists(fields).Some?
      then Some([ParseIndexList(field).value] + ParseIndexLists(fields).value) else None
  {
    assert ([field] + fields)[1..] == fields;
  }

  lemma IndexListHasNoSpace(open: char, close: char, l: seq<nat>)
    requires |l| >= 1 && open != ' ' && close != ' '
    ensures ' ' !in FormatIndexList(open, close, l)
  {
    JoinExcludes(ShowNats(l), ",", ' ');
  }

  lemma FieldsHaveNoSpace(m: Machine)
    requires forall b :: 0 <= b < |m.buttons| ==> |m.buttons[b]| >= 1
    requires |m.joltageReqs| >= 1
    ensures forall i :: 0 <= i < |MachineFields(m)| ==> ' ' !in MachineFields(m)[i]
  {
    var buttons := FormatButtons(m.buttons);
    var fields := MachineFields(m);
    forall i | 0 <= i < |fields| ensures ' ' !in fields[i] {
      if i == 0 {
        assert FormatGoal(m.goal) == "[" + GoalChars(m.goal) + "]";
      } else if i < |fields| - 1 {
        assert fields[i] == buttons[i - 1];
        IndexListHasNoSpace('(', ')', m.buttons[i - 1]);
      } else {
        IndexListHasNoSpace('{', '}', m.joltageReqs);
      }
    }
  }

  /** Parsing a line written in the puzzle's format gives back the machine. */
  lemma ParseFormatMachine(m: Machine)
    requires forall b :: 0 <= b < |m.buttons| ==> |m.buttons[b]| >= 1
    requires |m.joltageReqs| >= 1
    ensures ParseMachine(FormatMachine(m)) == Some(m)
  {
    var rest := FormatButtons(m.buttons) + [FormatIndexList('{', '}', m.joltageReqs)];
    var fields := MachineFields(m);
    FieldsHaveNoSpace(m);
    assert " "[0] == ' ';
    SplitJoin(fields, " ");
    assert Split(FormatMachine(m), " ") == fields;
    ParseFormatGoal(m.goal);
    assert ParseGoal(fields[0]) == Some(m.goal);
    assert fields[1..] == rest;
    ParseFormatLists(m.buttons, m.joltageReqs);
    var lists := m.buttons + [m.joltageReqs];
    assert ParseIndexLists(fields[1..]) == Some(lists);
    assert lists[..|lists| - 1] == m.buttons && lists[|lists| - 1] == m.joltageReqs;
  }

  // ===========================================================================
  // Pressing a button: `press_goal_button`

  /** Flip one light; an index past the end changes nothing (the method never does that). */
  function Flip(s: seq<bool>, i: nat): (r: seq<bool>)
    ensures |r| == |s|
  {
    if i < |s| then s[i := !s[i]] else s
  }

  /** The lights after flipping, in order, every index the button lists. */
  function Toggled(s: seq<bool>, button: seq<nat>): (r: seq<bool>)
    ensures |r| == |s|
  {
    if |button| == 0 then s else Flip(Toggled(s, button[..|button| - 1]), button[|button| - 1])
  }

  /** A light ends up flipped iff the button lists it an odd number of times. */
  lemma {:induction false} ToggledAt(s: seq<bool>, button: seq<nat>, i: nat)
    requires i < |s|
    ensures Toggled(s, button)[i] == (s[i] != (multiset(button)[i] % 2 == 1))
    decreases |button|
  {
    if |button| > 0 {
      var n := |button|;
      ToggledAt(s, button[..n - 1], i);
      assert button == button[..n - 1] + [button[n - 1]];
      assert multiset(button) == multiset(button[..n - 1]) + multiset{button[n - 1]};
    }
  }

  /** Pressing the same button twice restores the lights. */
  lemma PressTwice(s: seq<bool>, button: seq<nat>)
    ensures Toggled(Toggled(s, button), button) == s
  {
    forall i | 0 <= i < |s| ensures Toggled(Toggled(s, button), button)[i] == s[i] {
      ToggledAt(s, button, i);
      ToggledAt(Toggled(s, button), button, i);
    }
  }

  /** Presses commute, so only how often each button is pressed matters. */
  lemma PressesCommute(s: seq<bool>, a: seq<nat>, b: seq<nat>)
    ensures Toggled(Toggled(s, a), b) == Toggled(Toggled(s, b), a)
  {
    forall i | 0 <= i < |s| ensures Toggled(Toggled(s, a), b)[i] == Toggled(Toggled(s, b), a)[i] {
      ToggledAt(s, a, i);
      ToggledAt(s, b, i);
      ToggledAt(Toggled(s, a), b, i);
      ToggledAt(Toggled(s, b), a, i);
    }
  }

  /** `press_goal_button`: flips the listed lights of the (owned) state vector in place. */
  method PressGoalButton(state: seq<bool>, button: seq<nat>) returns (r: seq<bool>)
    requires forall k :: 0 <= k < |button| ==> button[k] < |state|
    ensures r == Toggled(state, button)
  {
    r := state;
    for k := 0 to |button|
      invariant r == Toggled(state, button[..k])
    {
      assert button[..k + 1][..k] == button[..k];
      r := r[button[k] := !r[button[k]]];
    }
    assert button[..|button|] == button;
  }

  // ===========================================================================
  // Fewest presses: `Machine::num_goal_presses`

  function AllOff(n: nat): (s: seq<bool>)
    ensures |s| == n && forall i :: 0 <= i < n ==> !s[i]
  {
    seq(n, _ => false)
  }

  /** The light pattern after pressing the buttons numbered in `presses`, in order. */
  function Apply(m: Machine, presses: seq<nat>): (s: seq<bool>)
    requires forall k :: 0 <= k < |presses| ==> presses[k] < |m.buttons|
    ensures |s| == |m.goal|
  {
    if |presses| == 0 then AllOff(|m.goal|)
    else Toggled(Apply(m, presses[..|presses| - 1]), m.buttons[presses[|presses| - 1]])
  }

  predicate ValidPresses(m: Machine, presses: seq<nat>)
  {
    forall k :: 0 <= k < |presses| ==> presses[k] < |m.buttons|
  }

  /** Some sequence of exactly `k` presses lights exactly the goal. */
  ghost predicate ReachesGoalIn(m: Machine, k: nat)
  {
    exists presses :: |presses| == k && ValidPresses(m, presses) && Apply(m, presses) == m.goal
  }

  /** The patterns reachable from all-off in exactly `k` presses. */
  ghost function Level(m: Machine, k: nat): set<seq<bool>>
  {
    if k == 0 then {AllOff(|m.goal|)}
    else set s, b | s in Level(m, k - 1) && 0 <= b < |m.buttons| :: Toggled(s, m.buttons[b])
  }

  /** The patterns reachable in at most `k` presses (the visited set after level `k`). */
  ghost function Upto(m: Machine, k: nat): set<seq<bool>>
  {
    if k == 0 then Level(m, 0) else Upto(m, k - 1) + Level(m, k)
  }

  /** The patterns reachable in fewer than `k` presses. */
  ghost function Before(m: Machine, k: nat): set<seq<bool>>
  {
    if k == 0 then {} else Upto(m, k - 1)
  }

  lemma ApplySnoc(m: Machine, p: seq<nat>, b: nat)
    requires ValidPresses(m, p) && b < |m.buttons|
    ensures ValidPresses(m, p + [b])
    ensures Apply(m, p + [b]) == Toggled(Apply(m, p), m.buttons[b])
  {
    var q := p + [b];
    assert q[..|q| - 1] == p;
  }

  lemma {:induction false} LevelHasPresses(m: Machine, k: nat, s: seq<bool>)
    requires s in Level(m, k)
    ensures exists presses :: |presses| == k && ValidPresses(m, presses) && Apply(m, presses) == s
    decreases k
  {
    if k == 0 {
      assert Apply(m, []) == s;
    } else {
      var t: seq<bool>, b: nat :| t in Level(m, k - 1) && b < |m.buttons| && s == Toggled(t, m.buttons[b]);
      LevelHasPresses(m, k - 1, t);
      var p :| |p| == k - 1 && ValidPresses(m, p) && Apply(m, p) == t;
      ApplySnoc(m, p, b);
      assert |p + [b]| == k;
    }
  }

  lemma {:induction false} PressesInLevel(m: Machine, presses: seq<nat>)
    requires ValidPresses(m, presses)
    ensures Apply(m, presses) in Level(m, |presses|)
    decreases |presses|
  {
    var k := |presses|;
    if k > 0 {
      var p := presses[..k - 1];
      PressesInLevel(m, p);
      var t := Apply(m, p);
      var b := presses[k - 1];
      assert Apply(m, presses) == Toggled(t, m.buttons[b]);
      assert t in Level(m, k - 1) && 0 <= b < |m.buttons|;
    }
  }

  /** `Level` is exactly the set of patterns some `k` presses produce. */
  lemma LevelIffPresses(m: Machine, k: nat, s: seq<bool>)
    ensures s in Level(m, k) <==>
      exists presses :: |presses| == k && ValidPresses(m, presses) && Apply(m, presses) == s
  {
    if s in Level(m, k) {
      LevelHasPresses(m, k, s);
    }
    if exists presses :: |presses| == k && ValidPresses(m, presses) && Apply(m, presses) == s {
      var q :| |q| == k && ValidPresses(m, q) && Apply(m, q) == s;
      PressesInLevel(m, q);
    }
  }

  lemma {:induction false} UptoMember(m: Machine, k: nat, s: seq<bool>)
    ensures s in Upto(m, k) <==> exists j :: 0 <= j <= k && s in Level(m, j)
    decreases k
  {
    if s in Level(m, k) {
      assert 0 <= k <= k && s in Level(m, k);
    }
    if k > 0 {
      UptoMember(m, k - 1, s);
    }
  }

  /** A pattern already seen before level `k` yields, after one more press, one seen by level `k`. */
  lemma OlderStateStep(m: Machine, k: nat, s: seq<bool>, b: nat)
    requires s in Before(m, k) && b < |m.buttons|
    ensures exists j :: 1 <= j <= k && Toggled(s, m.buttons[b]) in Level(m, j)
    ensures Toggled(s, m.buttons[b]) in Upto(m, k)
  {
    UptoMember(m, k - 1, s);
    var j :| 0 <= j <= k - 1 && s in Level(m, j);
    assert Toggled(s, m.buttons[b]) in Level(m, j + 1);
    UptoMember(m, k, Toggled(s, m.buttons[b]));
  }

  lemma LevelStep(m: Machine, k: nat, s: seq<bool>, b: nat)
    requires s in Level(m, k) && b < |m.buttons|
    ensures Toggled(s, m.buttons[b]) in Level(m, k + 1)
  {
  }

  /** The frontier after `k` presses holds exactly the patterns first reached with `k` presses. */
  ghost predicate IsFrontier(m: Machine, k: nat, frontier: seq<seq<bool>>)
  {
    forall s :: s in frontier <==> s in Level(m, k) && s !in Before(m, k)
  }

  /** Every button pressed on `current` gives a pattern in `visited` other than the goal. */
  ghost predicate Pressed(m: Machine, current: seq<bool>, visited: set<seq<bool>>)
  {
    forall b :: 0 <= b < |m.buttons| ==>
      Toggled(current, m.buttons[b]) in visited && Toggled(current, m.buttons[b]) != m.goal
  }

  /** When every press of the frontier lands in `Upto(k)` or `next`, `next` holds exactly the next level's new patterns. */
  lemma FrontierAdvance(m: Machine, k: nat, F: seq<seq<bool>>, next: seq<seq<bool>>, visited: set<seq<bool>>)
    requires IsFrontier(m, k, F)
    requires forall s :: s in next ==> s in Level(m, k + 1) && s !in Upto(m, k)
    requires forall s :: s in visited <==> s in Upto(m, k) || s in next
    requires forall p :: 0 <= p < |F| ==> Pressed(m, F[p], visited)
    ensures IsFrontier(m, k + 1, next)
    ensures visited == Upto(m, k + 1)
  {
    forall x | x in Level(m, k + 1) - Upto(m, k) ensures x in next {
      var s: seq<bool>, b: nat :| s in Level(m, k) && b < |m.buttons| && x == Toggled(s, m.buttons[b]);
      if s in F {
        var p :| 0 <= p < |F| && F[p] == s;
        assert Pressed(m, F[p], visited);
      } else {
        OlderStateStep(m, k, s, b);
      }
    }
  }

  /** If no press of the frontier gives the goal, the goal is not reachable in exactly `k + 1` presses. */
  lemma GoalNotNext(m: Machine, k: nat, F: seq<seq<bool>>, visited: set<seq<bool>>)
    requires IsFrontier(m, k, F)
    requires forall j :: 1 <= j <= k ==> m.goal !in Level(m, j)
    requires forall p :: 0 <= p < |F| ==> Pressed(m, F[p], visited)
    ensures m.goal !in Level(m, k + 1)
  {
    forall s, b: nat | s in Level(m, k) && b < |m.buttons| ensures Toggled(s, m.buttons[b]) != m.goal {
      if s in F {
        var p :| 0 <= p < |F| && F[p] == s;
        assert Pressed(m, F[p], visited);
      } else {
        OlderStateStep(m, k, s, b);
      }
    }
  }

  lemma {:induction false} LevelWidth(m: Machine, k: nat)
    ensures forall s :: s in Level(m, k) ==> |s| == |m.goal|
    decreases k
  {
    if k > 0 {
      LevelWidth(m, k - 1);
    }
  }

  /** The patterns queued so far in a round, and the visited set grown by exactly them. */
  ghost predicate Collected(m: Machine, k: nat, visited: set<seq<bool>>, next: seq<seq<bool>>, visited': set<seq<bool>>)
  {
    && (forall s :: s in visited' <==> s in visited || s in next)
    && (forall s :: s in next ==> s in Level(m, k + 1) && s !in visited)
    && (forall p, q :: 0 <= p < q < |next| ==> next[p] != next[q])
  }

  /** `Pressed` survives the visited set growing, for every pattern of a frontier prefix. */
  lemma PressedGrows(m: Machine, frontier: seq<seq<bool>>, i: nat, visited: set<seq<bool>>, visited': set<seq<bool>>)
    requires i <= |frontier| && visited <= visited'
    requires forall p :: 0 <= p < i ==> Pressed(m, frontier[p], visited)
    ensures forall p :: 0 <= p < i ==> Pressed(m, frontier[p], visited')
  {
    forall p | 0 <= p < i ensures Pressed(m, frontier[p], visited') {
      assert Pressed(m, frontier[p], visited);
    }
  }

  /**
   * The inner loop of `num_goal_presses`: press each button on one pattern of
   * the level-`k` frontier, stopping at the goal, queueing unseen results.
   */
  method PressEach(m: Machine, k: nat, current: seq<bool>, ghost visited: set<seq<bool>>,
                   next: seq<seq<bool>>, visited': set<seq<bool>>)
    returns (found: bool, next': seq<seq<bool>>, visited'': set<seq<bool>>)
    requires WellFormed(m) && current in Level(m, k) && |current| == |m.goal|
    requires Collected(m, k, visited, next, visited')
    ensures found ==> m.goal in Level(m, k + 1)
    ensures Collected(m, k, visited, next', visited'')
    ensures visited' <= visited''
    ensures !found ==> Pressed(m, current, visited'')
  {
    next', visited'' := next, visited';
    for b := 0 to |m.buttons|
      invariant Collected(m, k, visited, next', visited'')
      invariant visited' <= visited''
      invariant forall c :: 0 <= c < b ==>
        Toggled(current, m.buttons[c]) in visited'' && Toggled(current, m.buttons[c]) != m.goal
    {
      var newState := PressGoalButton(current, m.buttons[b]);
      LevelStep(m, k, current, b);
      if newState == m.goal {
        return true, next', visited'';
      }
      if newState !in visited'' {
        next' := next' + [newState];
        visited'' := visited'' + {newState};
      }
    }
    found := false;
  }

  /**
   * One round of `num_goal_presses`: press every button on every frontier
   * pattern in order; stop with `found` at the first press that gives the goal,
   * otherwise queue (and mark visited) each pattern not seen before.
   */
  method ExpandFrontier(m: Machine, k: nat, frontier: seq<seq<bool>>, visited: set<seq<bool>>)
    returns (found: bool, next: seq<seq<bool>>, visited': set<seq<bool>>)
    requires WellFormed(m)
    requires forall s :: s in frontier ==> s in Level(m, k)
    ensures found ==> m.goal in Level(m, k + 1)
    ensures !found ==> forall p :: 0 <= p < |frontier| ==> Pressed(m, frontier[p], visited')
    ensures Collected(m, k, visited, next, visited')
  {
    LevelWidth(m, k);
    next := [];
    visited' := visited;
    for i := 0 to |frontier|
      invariant Collected(m, k, visited, next, visited')
      invariant forall p :: 0 <= p < i ==> Pressed(m, frontier[p], visited')
    {
      assert frontier[i] in Level(m, k);
      ghost var before := visited';
      found, next, visited' := PressEach(m, k, frontier[i], visited, next, visited');
      if found {
        return;
      }
      PressedGrows(m, frontier, i, before, visited');
    }
    found := false;
  }

  /** Reaching the goal first at level `n` means `n` is the fewest presses that light it. */
  lemma FirstReach(m: Machine, n: nat)
    requires m.goal in Level(m, n)
    requires forall j :: 1 <= j < n ==> m.goal !in Level(m, j)
    ensures ReachesGoalIn(m, n)
    ensures forall k :: 1 <= k < n ==> !ReachesGoalIn(m, k)
  {
    forall k | 1 <= k < n ensures !ReachesGoalIn(m, k) {
      LevelIffPresses(m, k, m.goal);
    }
    LevelIffPresses(m, n, m.goal);
  }

  /** The goal is not reachable with between one and `k` presses. */
  ghost predicate NotReachedBy(m: Machine, k: nat)
  {
    forall j :: 1 <= j <= k ==> m.goal !in Level(m, j)
  }

  /** The state of the search after `k` rounds. */
  ghost predicate Searching(m: Machine, k: nat, frontier: seq<seq<bool>>, visited: set<seq<bool>>)
  {
    IsFrontier(m, k, frontier) && visited == Upto(m, k) && NotReachedBy(m, k)
  }

  /** A round that does not find the goal leaves the search in its state for `k + 1`. */
  lemma SearchStep(m: Machine, k: nat, frontier: seq<seq<bool>>, visited: set<seq<bool>>,
                   next: seq<seq<bool>>, visited': set<seq<bool>>)
    requires Searching(m, k, frontier, visited)
    requires forall p :: 0 <= p < |frontier| ==> Pressed(m, frontier[p], visited')
    requires Collected(m, k, visited, next, visited')
    ensures Searching(m, k + 1, next, visited')
  {
    FrontierAdvance(m, k, frontier, next, visited');
    GoalNotNext(m, k, frontier, visited');
  }

  /**
   * `num_goal_presses`: level-by-level breadth-first search from all-off. The
   * start pattern is never compared with the goal, so the answer is the length
   * of the shortest NON-EMPTY press sequence that lights exactly the goal. The
   * source loops forever when there is none, hence the precondition.
   */
  method NumGoalPresses(m: Machine) returns (presses: nat)
    requires WellFormed(m)
    requires exists k :: k >= 1 && ReachesGoalIn(m, k)
    ensures presses >= 1 && ReachesGoalIn(m, presses)
    ensures forall k :: 1 <= k < presses ==> !ReachesGoalIn(m, k)
  {
    ghost var target :| target >= 1 && ReachesGoalIn(m, target);
    LevelIffPresses(m, target, m.goal);
    var frontier: seq<seq<bool>> := [AllOff(|m.goal|)];
    var visited: set<seq<bool>> := {AllOff(|m.goal|)};
    var loopIters: nat := 0;
    while true
      invariant loopIters < target
      invariant Searching(m, loopIters, frontier, visited)
      decreases target - loopIters
    {
      var found, next, visited' := ExpandFrontier(m, loopIters, frontier, visited);
      if found {
        FirstReach(m, loopIters + 1);
        return loopIters + 1;
      }
      SearchStep(m, loopIters, frontier, visited, next, visited');
      frontier, visited := next, visited';
      loopIters := loopIters + 1;
    }
  }

  // ===========================================================================
  // The joltage system (`num_joltage_presses` builds it for an external solver)

  /** Sum of `counts[b]` over the buttons `b` below `upto` that touch `light`. */
  function CoveredSum(m: Machine, counts: seq<nat>, light: nat, upto: nat): nat
    requires upto <= |m.buttons| == |counts|
  {
    if upto == 0 then 0
    else CoveredSum(m, counts, light, upto - 1) + (if light in m.buttons[upto - 1] then counts[upto - 1] else 0)
  }

  /** Press counts per button that meet every light's joltage requirement exactly. */
  predicate SatisfiesJoltage(m: Machine, counts: seq<nat>)
  {
    |counts| == |m.buttons| &&
    forall light :: 0 <= light < |m.joltageReqs| ==> CoveredSum(m, counts, light, |counts|) == m.joltageReqs[light]
  }
}
