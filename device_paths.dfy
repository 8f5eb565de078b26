/**
 * 2025 day 11: devices wired into a directed graph, one line per device
 * (`aaa: bbb ccc`), and the number of paths from one device to another,
 * counted recursively with a memo of the counts already found.
 */
module DevicePaths {
  import opened Wrappers
  import opened Text

  datatype Device = Device(name: string, connectedTo: seq<string>)

  /** `String::pop`: drop the last character, if there is one. */
  function DropLast(s: string): (r: string)
    ensures |s| == 0 ==> r == s
    ensures |s| > 0 ==> r + [s[|s| - 1]] == s
  {
    if |s| == 0 then s else s[..|s| - 1]
  }

  /**
   * `Device::from`: the first space-separated token without its last
   * character (the colon) names the device; the other tokens, in order, are
   * the devices it feeds.
   */
  function ParseDevice(line: string): (d: Device)
    ensures var parts := Split(line, " ");
      && d.connectedTo == parts[1..]
      && (|parts[0]| > 0 ==> d.name + [parts[0][|parts[0]| - 1]] == parts[0])
      && (|parts[0]| == 0 ==> d.name == "")
  {
    var parts := Split(line, " ");
    Device(DropLast(parts[0]), parts[1..])
  }

  /** The line a device comes from: its name, a colon, then its outputs, all separated by single spaces. */
  function FormatDevice(d: Device): string
  {
    Join([d.name + ":"] + d.connectedTo, " ")
  }

  predicate NoSpaces(s: string)
  {
    ' ' !in s
  }

  /** Parsing a formatted device gives the device back, when no name holds a space. */
  lemma ParseFormat(d: Device)
    requires NoSpaces(d.name) && forall c :: c in d.connectedTo ==> NoSpaces(c)
    ensures ParseDevice(FormatDevice(d)) == d
  {
    var parts := [d.name + ":"] + d.connectedTo;
    forall i | 0 <= i < |parts| ensures " "[0] !in parts[i] {
      if i > 0 {
        assert parts[i] == d.connectedTo[i - 1];
        assert NoSpaces(d.connectedTo[i - 1]);
      } else {
        assert parts[0] == d.name + ":";
        assert NoSpaces(d.name);
      }
    }
    SplitJoin(parts, " ");
    assert parts[0][..|parts[0]| - 1] == d.name;
    assert parts[1..] == d.connectedTo;
  }

  /** Parsing loses only the character dropped from the name: putting it back rebuilds the line. */
  lemma ParseKeepsLine(line: string)
    requires |Split(line, " ")[0]| > 0
    ensures var d, first := ParseDevice(line), Split(line, " ")[0];
      Join([d.name + [first[|first| - 1]]] + d.connectedTo, " ") == line
  {
    var parts := Split(line, " ");
    JoinSplit(line, " ");
    assert parts == [parts[0]] + parts[1..];
  }

  // ---------------------------------------------------------------------------
  // The device graph

  /** `devices.iter().find(|d| d.name == name)`: the first device with that name. */
  function Find(devices: seq<Device>, name: string): (r: Option<Device>)
    ensures r.None? <==> forall i :: 0 <= i < |devices| ==> devices[i].name != name
    ensures r.Some? ==> exists i :: 0 <= i < |devices| && devices[i] == r.value && devices[i].name == name &&
                                    (forall j :: 0 <= j < i ==> devices[j].name != name)
  {
    if |devices| == 0 then None
    else if devices[0].name == name then Some(devices[0])
    else
      var r := Find(devices[1..], name);
      assert forall i :: 0 < i < |devices| ==> devices[i] == devices[1..][i - 1];
      r
  }

  /** The devices `name` feeds, as `paths` sees them: those of the first device so named. */
  function Successors(devices: seq<Device>, name: string): seq<string>
  {
    match Find(devices, name)
    case None => []
    case Some(d) => d.connectedTo
  }

  /**
   * The graph has no cycle: some ranking of the names drops along every
   * connection, which is what keeps `paths` from recursing forever.
   */
  ghost predicate Acyclic(devices: seq<Device>, rank: string -> nat)
  {
    forall n, c :: c in Successors(devices, n) ==> rank(c) < rank(n)
  }

  /** The number of paths from `cur` to `target`, without a memo. */
  ghost function PathCount(devices: seq<Device>, cur: string, target: string, rank: string -> nat): nat
    requires Acyclic(devices, rank)
    decreases rank(cur), 1, 0
  {
    if cur == target then 1
    else SumPaths(devices, Successors(devices, cur), target, rank, rank(cur))
  }

  /** The path counts of `conns` added up from the left, as the fold does. */
  ghost function SumPaths(devices: seq<Device>, conns: seq<string>, target: string, rank: string -> nat, bound: nat): nat
    requires Acyclic(devices, rank)
    requires forall c :: c in conns ==> rank(c) < bound
    decreases bound, 0, |conns|
  {
    if |conns| == 0 then 0
    else SumPaths(devices, conns[..|conns| - 1], target, rank, bound) + PathCount(devices, conns[|conns| - 1], target, rank)
  }

  /** Every remembered count `(from, to) -> k` is the number of paths from `from` to `to`. */
  ghost predicate MemoCorrect(devices: seq<Device>, memo: map<(string, string), nat>, rank: string -> nat)
    requires Acyclic(devices, rank)
  {
    forall key :: key in memo ==> memo[key] == PathCount(devices, key.0, key.1, rank)
  }

  /**
   * `paths`: the number of paths from `cur` to `target`, reusing and
   * extending the memo; every count it remembers is right.
   */
  method Paths(devices: seq<Device>, cur: string, target: string, memo: map<(string, string), nat>, ghost rank: string -> nat)
    returns (count: nat, memo': map<(string, string), nat>)
    requires Acyclic(devices, rank)
    requires MemoCorrect(devices, memo, rank)
    ensures count == PathCount(devices, cur, target, rank)
    ensures MemoCorrect(devices, memo', rank)
    ensures memo.Keys <= memo'.Keys
    decreases rank(cur)
  {
    if cur == target {
      return 1, memo;
    }
    var found := Find(devices, cur);
    if found.None? {
      return 0, memo;
    }
    var conns := found.value.connectedTo;
    assert conns == Successors(devices, cur);
    count, memo' := 0, memo;
    for i := 0 to |conns|
      invariant count == SumPaths(devices, conns[..i], target, rank, rank(cur))
      invariant MemoCorrect(devices, memo', rank)
      invariant memo.Keys <= memo'.Keys
    {
      var next := conns[i];
      assert conns[..i + 1][..i] == conns[..i];
      if (next, target) in memo' {
        count := count + memo'[(next, target)];
      } else {
        var n;
        n, memo' := Paths(devices, next, target, memo', rank);
        memo' := memo'[(next, target) := n];
        count := count + n;
      }
    }
    assert conns[..|conns|] == conns;
  }

  // ---------------------------------------------------------------------------
  // What the count counts

  /**
   * A path from `cur` to `target`: each device feeds the next, and the path
   * stops the first time it reaches `target`.
   */
  ghost predicate IsPath(devices: seq<Device>, w: seq<string>, cur: string, target: string)
  {
    && |w| >= 1 && w[0] == cur && w[|w| - 1] == target
    && (forall i :: 0 <= i < |w| - 1 ==> w[i] != target)
    && (forall i :: 0 <= i < |w| - 1 ==> w[i + 1] in Successors(devices, w[i]))
  }

  /** `[x] + w` for every `w` in `ws`. */
  ghost function PrependAll(x: string, ws: set<seq<string>>): set<seq<string>>
  {
    set w | w in ws :: [x] + w
  }

  /** The paths from `cur` to `target`, built the way `PathCount` counts them. */
  ghost function PathSet(devices: seq<Device>, cur: string, target: string, rank: string -> nat): set<seq<string>>
    requires Acyclic(devices, rank)
    decreases rank(cur), 1, 0
  {
    if cur == target then {[cur]}
    else UnionPaths(devices, cur, Successors(devices, cur), target, rank, rank(cur))
  }

  ghost function UnionPaths(devices: seq<Device>, cur: string, conns: seq<string>, target: string, rank: string -> nat, bound: nat): set<seq<string>>
    requires Acyclic(devices, rank)
    requires forall c :: c in conns ==> rank(c) < bound
    decreases bound, 0, |conns|
  {
    if |conns| == 0 then {}
    else UnionPaths(devices, cur, conns[..|conns| - 1], target, rank, bound)
         + PrependAll(cur, PathSet(devices, conns[|conns| - 1], target, rank))
  }

  lemma {:induction false} PathSetMembers(devices: seq<Device>, cur: string, target: string, rank: string -> nat)
    requires Acyclic(devices, rank)
    ensures forall w :: w in PathSet(devices, cur, target, rank) <==> IsPath(devices, w, cur, target)
    decreases rank(cur)
  {
    if cur == target {
      forall w | IsPath(devices, w, cur, target) ensures w == [cur] {
        assert |w| <= 1 by { assert w[0] == target; }
      }
    } else {
      var conns := Successors(devices, cur);
      UnionComplete(devices, cur, conns, target, rank, rank(cur));
      forall w | IsPath(devices, w, cur, target)
        ensures w in PathSet(devices, cur, target, rank)
      {
        PathTail(devices, w, cur, target);
        PathSetMembers(devices, w[1], target, rank);
      }
      forall w | w in PathSet(devices, cur, target, rank)
        ensures IsPath(devices, w, cur, target)
      {
        var c, v := UnionWitness(devices, cur, conns, target, rank, rank(cur), w);
        PathSetMembers(devices, c, target, rank);
        PathExtends(devices, cur, c, v, target);
      }
    }
  }

  /** A path that has not started at the target goes on along a path from its second device. */
  lemma PathTail(devices: seq<Device>, w: seq<string>, cur: string, target: string)
    requires IsPath(devices, w, cur, target) && cur != target
    ensures |w| > 1 && w[1] in Successors(devices, cur) && w == [cur] + w[1..]
    ensures IsPath(devices, w[1..], w[1], target)
  {
    assert |w| > 1;
    forall i | 0 <= i < |w[1..]| - 1 ensures w[1..][i + 1] in Successors(devices, w[1..][i]) {
      assert w[1..][i] == w[i + 1];
    }
  }

  /** A step from `cur` to a device it feeds, followed by a path on from there, is a path. */
  lemma PathExtends(devices: seq<Device>, cur: string, c: string, v: seq<string>, target: string)
    requires cur != target && c in Successors(devices, cur) && IsPath(devices, v, c, target)
    ensures IsPath(devices, [cur] + v, cur, target)
  {
    var w := [cur] + v;
    forall i | 0 <= i < |w| - 1 ensures w[i + 1] in Successors(devices, w[i]) && w[i] != target {
      if i > 0 {
        assert w[i] == v[i - 1] && w[i + 1] == v[i];
      }
    }
  }

  /** Every path in the union starts at `cur` and goes on along a path from one of `conns`. */
  lemma {:induction false} UnionWitness(devices: seq<Device>, cur: string, conns: seq<string>, target: string,
                                        rank: string -> nat, bound: nat, w: seq<string>)
    returns (c: string, v: seq<string>)
    requires Acyclic(devices, rank)
    requires forall c :: c in conns ==> rank(c) < bound
    requires w in UnionPaths(devices, cur, conns, target, rank, bound)
    ensures c in conns && v in PathSet(devices, c, target, rank) && w == [cur] + v
    decreases |conns|
  {
    var init, last := conns[..|conns| - 1], conns[|conns| - 1];
    if w in UnionPaths(devices, cur, init, target, rank, bound) {
      c, v := UnionWitness(devices, cur, init, target, rank, bound, w);
      assert c in conns;
    } else {
      assert w in PrependAll(cur, PathSet(devices, last, target, rank));
      c := last;
      v :| v in PathSet(devices, last, target, rank) && w == [cur] + v;
    }
  }

  lemma {:induction false} UnionComplete(devices: seq<Device>, cur: string, conns: seq<string>, target: string, rank: string -> nat, bound: nat)
    requires Acyclic(devices, rank)
    requires forall c :: c in conns ==> rank(c) < bound
    ensures forall c, v :: c in conns && v in PathSet(devices, c, target, rank) ==>
      [cur] + v in UnionPaths(devices, cur, conns, target, rank, bound)
    decreases |conns|
  {
    if |conns| > 0 {
      var init, last := conns[..|conns| - 1], conns[|conns| - 1];
      UnionComplete(devices, cur, init, target, rank, bound);
      forall c, v | c in conns && v in PathSet(devices, c, target, rank)
        ensures [cur] + v in UnionPaths(devices, cur, conns, target, rank, bound)
      {
        if c != last {
          assert c in init;
        }
      }
    }
  }

  /** No device lists the same output twice. */
  ghost predicate NoRepeatedWires(devices: seq<Device>)
  {
    forall n, i, j :: 0 <= i < j < |Successors(devices, n)| ==> Successors(devices, n)[i] != Successors(devices, n)[j]
  }

  lemma {:induction false} PrependCard(x: string, ws: set<seq<string>>)
    ensures |PrependAll(x, ws)| == |ws|
    decreases |ws|
  {
    if ws != {} {
      var y :| y in ws;
      var rest := ws - {y};
      PrependCard(x, rest);
      assert PrependAll(x, ws) == PrependAll(x, rest) + {[x] + y};
      assert [x] + y !in PrependAll(x, rest) by {
        forall v | v in rest ensures [x] + v != [x] + y {
          assert ([x] + v)[1..] == v && ([x] + y)[1..] == y;
        }
      }
    } else {
      assert PrependAll(x, ws) == {};
    }
  }

  /**
   * When no device lists an output twice, the count is exactly the number of
   * distinct paths from `cur` to `target`.
   */
  lemma {:induction false} PathCountIsSize(devices: seq<Device>, cur: string, target: string, rank: string -> nat)
    requires Acyclic(devices, rank) && NoRepeatedWires(devices)
    ensures |PathSet(devices, cur, target, rank)| == PathCount(devices, cur, target, rank)
    decreases rank(cur), 1, 0
  {
    if cur != target {
      UnionCard(devices, cur, Successors(devices, cur), target, rank, rank(cur));
    }
  }

  lemma {:induction false} UnionCard(devices: seq<Device>, cur: string, conns: seq<string>, target: string, rank: string -> nat, bound: nat)
    requires Acyclic(devices, rank) && NoRepeatedWires(devices)
    requires forall c :: c in conns ==> rank(c) < bound
    requires forall i, j :: 0 <= i < j < |conns| ==> conns[i] != conns[j]
    ensures |UnionPaths(devices, cur, conns, target, rank, bound)| == SumPaths(devices, conns, target, rank, bound)
    decreases bound, 0, |conns|
  {
    if |conns| > 0 {
      var init, last := conns[..|conns| - 1], conns[|conns| - 1];
      UnionCard(devices, cur, init, target, rank, bound);
      PathCountIsSize(devices, last, target, rank);
      PrependCard(cur, PathSet(devices, last, target, rank));
      UnionDisjoint(devices, cur, init, last, target, rank, bound);
    }
  }

  /** Paths through different first steps are different paths. */
  lemma UnionDisjoint(devices: seq<Device>, cur: string, init: seq<string>, last: string, target: string, rank: string -> nat, bound: nat)
    requires Acyclic(devices, rank)
    requires forall c :: c in init ==> rank(c) < bound
    requires last !in init
    ensures UnionPaths(devices, cur, init, target, rank, bound) !! PrependAll(cur, PathSet(devices, last, target, rank))
  {
    PathSetMembers(devices, last, target, rank);
    forall w | w in UnionPaths(devices, cur, init, target, rank, bound)
      ensures w !in PrependAll(cur, PathSet(devices, last, target, rank))
    {
      var c, v := UnionWitness(devices, cur, init, target, rank, bound, w);
      PathSetMembers(devices, c, target, rank);
      assert w[1] == c;
    }
  }
}
