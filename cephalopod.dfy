/**
 * Cephalopod math worksheets (2025/day6): a grid of numbers whose last line
 * holds one operator per problem. Part 1 reads each problem as a column of
 * whitespace-separated numbers; part 2 reads every character column as one
 * number and separates problems by blank columns.
 */
module ColumnArithmetic {
  import opened Wrappers
  import opened Text

  // ---------------------------------------------------------------------------
  // Operators

  datatype Op = Multiply | Add

  function ShowOp(op: Op): string
  {
    match op
    case Multiply => "*"
    case Add => "+"
  }

  /** `Op::from_str`: `*` and `+`; anything else is an error naming the text. */
  function ParseOp(s: string): (r: Result<Op>)
    ensures r.Ok? <==> s == "*" || s == "+"
    ensures r.Ok? ==> ShowOp(r.value) == s
    ensures r.Err? ==> r.error == "Invalid operation: " + s
  {
    if s == "*" then Ok(Multiply)
    else if s == "+" then Ok(Add)
    else Err("Invalid operation: " + s)
  }

  lemma ParseShowOp(op: Op)
    ensures ParseOp(ShowOp(op)) == Ok(op)
  {
  }

  /** `Op::init_val`. */
  function InitVal(op: Op): nat
  {
    match op
    case Multiply => 1
    case Add => 0
  }

  /** `Op::apply`. */
  function Apply(op: Op, a: nat, b: nat): nat
  {
    match op
    case Multiply => a * b
    case Add => a + b
  }

  /** `init_val` is a two-sided identity of `apply`. */
  lemma InitValIdentity(op: Op, x: nat)
    ensures Apply(op, InitVal(op), x) == x && Apply(op, x, InitVal(op)) == x
  {
  }

  lemma ApplyAssociative(op: Op, a: nat, b: nat, c: nat)
    ensures Apply(op, Apply(op, a, b), c) == Apply(op, a, Apply(op, b, c))
  {
    if op == Multiply {
      assert (a * b) * c == a * (b * c);
    }
  }

  /** A problem's answer: its numbers folded left with the operator, from its identity. */
  function Reduce(op: Op, xs: seq<nat>): nat
  {
    if |xs| == 0 then InitVal(op) else Apply(op, Reduce(op, xs[..|xs| - 1]), xs[|xs| - 1])
  }

  /** Folding a concatenation combines the folds of the parts, so grouping does not matter. */
  lemma {:induction false} ReduceAppend(op: Op, xs: seq<nat>, ys: seq<nat>)
    ensures Reduce(op, xs + ys) == Apply(op, Reduce(op, xs), Reduce(op, ys))
    decreases |ys|
  {
    if |ys| == 0 {
      assert xs + ys == xs;
      InitValIdentity(op, Reduce(op, xs));
    } else {
      var n := |ys| - 1;
      assert (xs + ys)[..|xs + ys| - 1] == xs + ys[..n];
      ReduceAppend(op, xs, ys[..n]);
      ApplyAssociative(op, Reduce(op, xs), Reduce(op, ys[..n]), ys[n]);
    }
  }

  /** The sum `fold(0, |acc, x| acc + x)`. */
  function Total(xs: seq<nat>): nat
  {
    if |xs| == 0 then 0 else Total(xs[..|xs| - 1]) + xs[|xs| - 1]
  }

  /** Parsing each word with `Op::from_str`; any error makes the source's `unwrap` panic. */
  function ParseOps(words: seq<string>): (r: Option<seq<Op>>)
    ensures r.Some? <==> forall i :: 0 <= i < |words| ==> ParseOp(words[i]).Ok?
    ensures r.Some? ==> |r.value| == |words|
    ensures r.Some? ==> forall i :: 0 <= i < |words| ==> ShowOp(r.value[i]) == words[i]
  {
    if forall i :: 0 <= i < |words| ==> ParseOp(words[i]).Ok? then
      Some(seq(|words|, i requires 0 <= i < |words| => ParseOp(words[i]).value))
    else None
  }

  // ---------------------------------------------------------------------------
  // Part 1: problems are columns of whitespace-separated numbers

  /** Column `c` of the rows, top to bottom. */
  function Column(rows: seq<seq<nat>>, c: nat): (col: seq<nat>)
    requires forall j :: 0 <= j < |rows| ==> c < |rows[j]|
    ensures |col| == |rows|
    ensures forall j :: 0 <= j < |rows| ==> col[j] == rows[j][c]
  {
    seq(|rows|, j requires 0 <= j < |rows| => rows[j][c])
  }

  predicate RowsCover(rows: seq<seq<nat>>, width: nat)
  {
    forall j :: 0 <= j < |rows| ==> width <= |rows[j]|
  }

  /**
   * The running values of `grand_total`'s fold after the given rows: value
   * `i` starts at operator `i`'s identity and absorbs argument `i` of each
   * row. A row shorter than the operator line makes `new_args[idx]` panic.
   */
  function ColumnFold(ops: seq<Op>, rows: seq<seq<nat>>): (vals: seq<nat>)
    requires RowsCover(rows, |ops|)
    ensures |vals| == |ops|
  {
    if |rows| == 0 then seq(|ops|, i requires 0 <= i < |ops| => InitVal(ops[i]))
    else
      var prev := ColumnFold(ops, rows[..|rows| - 1]);
      var args := rows[|rows| - 1];
      seq(|ops|, i requires 0 <= i < |ops| => Apply(ops[i], prev[i], args[i]))
  }

  /** Each running value of the fold is its column's answer. */
  lemma {:induction false} ColumnFoldIsReduce(ops: seq<Op>, rows: seq<seq<nat>>)
    requires RowsCover(rows, |ops|)
    ensures forall i :: 0 <= i < |ops| ==> ColumnFold(ops, rows)[i] == Reduce(ops[i], Column(rows, i))
    decreases |rows|
  {
    if |rows| > 0 {
      var n := |rows| - 1;
      ColumnFoldIsReduce(ops, rows[..n]);
      forall i | 0 <= i < |ops| ensures Column(rows, i)[..n] == Column(rows[..n], i) {
      }
    }
  }

  /** The answers of the column problems, one per operator. */
  function ColumnAnswers(ops: seq<Op>, rows: seq<seq<nat>>): (answers: seq<nat>)
    requires RowsCover(rows, |ops|)
    ensures |answers| == |ops|
  {
    seq(|ops|, i requires 0 <= i < |ops| => Reduce(ops[i], Column(rows, i)))
  }

  /** The lines up to the operator line, each split on whitespace and parsed. */
  function ParseRows(lines: seq<string>): (r: Option<seq<seq<nat>>>)
    ensures r.Some? <==> forall j :: 0 <= j < |lines| ==> ParseNats(Words(lines[j])).Some?
    ensures r.Some? ==> |r.value| == |lines|
    ensures r.Some? ==> forall j :: 0 <= j < |lines| ==> r.value[j] == ParseNats(Words(lines[j])).value
  {
    if forall j :: 0 <= j < |lines| ==> ParseNats(Words(lines[j])).Some? then
      Some(seq(|lines|, j requires 0 <= j < |lines| => ParseNats(Words(lines[j])).value))
    else None
  }

  /**
   * `grand_total`: the last line's words are the operators, the other lines'
   * words the numbers; the answer is the sum of the column folds. `None`
   * where the source panics: no lines, a bad operator or number, or a row
   * with fewer numbers than there are operators.
   */
  function GrandTotal(lines: seq<string>): (r: Option<nat>)
    ensures r.Some? <==>
              |lines| >= 1
              && ParseOps(Words(lines[|lines| - 1])).Some?
              && ParseRows(lines[..|lines| - 1]).Some?
              && RowsCover(ParseRows(lines[..|lines| - 1]).value, |Words(lines[|lines| - 1])|)
    ensures r.Some? ==>
              var ops := ParseOps(Words(lines[|lines| - 1])).value;
              var rows := ParseRows(lines[..|lines| - 1]).value;
              r.value == Total(ColumnAnswers(ops, rows))
  {
    if |lines| == 0 then None
    else
      var ops := ParseOps(Words(lines[|lines| - 1]));
      var rows := ParseRows(lines[..|lines| - 1]);
      if ops.None? || rows.None? || !RowsCover(rows.value, |ops.value|) then None
      else
        ColumnFoldIsReduce(ops.value, rows.value);
        assert ColumnFold(ops.value, rows.value) == ColumnAnswers(ops.value, rows.value);
        Some(Total(ColumnFold(ops.value, rows.value)))
  }

  // ---------------------------------------------------------------------------
  // Part 2: problems are runs of character columns between blank columns

  /** The smaller of `n` and every row's length: how far `zip` keeps the columns. */
  function MinLength(rows: seq<string>, n: nat): (m: nat)
    ensures m <= n && forall j :: 0 <= j < |rows| ==> m <= |rows[j]|
    ensures m == n || exists j :: 0 <= j < |rows| && m == |rows[j]|
  {
    if |rows| == 0 then n
    else
      var rest := MinLength(rows[..|rows| - 1], n);
      var last := |rows[|rows| - 1]|;
      assert forall j :: 0 <= j < |rows| - 1 ==> rows[j] == rows[..|rows| - 1][j];
      if last < rest then last else rest
  }

  /**
   * The character columns of the rows, read top to bottom, cut to `numCols`
   * and to the shortest row.
   */
  function Transposed(rows: seq<string>, numCols: nat): (cols: seq<string>)
    ensures |cols| == MinLength(rows, numCols)
    ensures forall c :: 0 <= c < |cols| ==> |cols[c]| == |rows|
    ensures forall c, j :: 0 <= c < |cols| && 0 <= j < |rows| ==> cols[c][j] == rows[j][c]
  {
    var m := MinLength(rows, numCols);
    seq(m, c requires 0 <= c < m => seq(|rows|, j requires 0 <= j < |rows| => rows[j][c]))
  }

  /** Trimmed columns; the empty string marks a blank column. */
  function TrimAll(cols: seq<string>): (ts: seq<string>)
    ensures |ts| == |cols| && forall c :: 0 <= c < |cols| ==> ts[c] == Trim(cols[c])
  {
    seq(|cols|, c requires 0 <= c < |cols| => Trim(cols[c]))
  }

  /**
   * The runs between the empty strings: one more run than there are empty
   * strings, empty runs included.
   */
  function Segments(ts: seq<string>): (segs: seq<seq<string>>)
    ensures |segs| >= 1
  {
    if |ts| == 0 then [[]]
    else
      var prev := Segments(ts[..|ts| - 1]);
      var t := ts[|ts| - 1];
      if t == "" then prev + [[]]
      else prev[..|prev| - 1] + [prev[|prev| - 1] + [t]]
  }

  /** The runs put back together with an empty string between consecutive ones. */
  function JoinSegments(segs: seq<seq<string>>): seq<string>
    requires |segs| >= 1
  {
    if |segs| == 1 then segs[0] else JoinSegments(segs[..|segs| - 1]) + [""] + segs[|segs| - 1]
  }

  predicate NoBlank(seg: seq<string>)
  {
    forall k :: 0 <= k < |seg| ==> seg[k] != ""
  }

  /** Opening a new, empty run adds one blank to the joined columns. */
  lemma JoinSegmentsOpen(segs: seq<seq<string>>)
    requires |segs| >= 1
    ensures JoinSegments(segs + [[]]) == JoinSegments(segs) + [""]
  {
    assert (segs + [[]])[..|segs|] == segs;
  }

  /** Extending the last run by one column extends the joined columns by it. */
  lemma JoinSegmentsExtend(segs: seq<seq<string>>, t: string)
    requires |segs| >= 1
    ensures var m := |segs| - 1;
            JoinSegments(segs[..m] + [segs[m] + [t]]) == JoinSegments(segs) + [t]
  {
    var m := |segs| - 1;
    if m > 0 {
      var init, last := segs[..m], segs[m];
      SplitLast(segs);
      JoinSegmentsSnoc(init, last + [t]);
      JoinSegmentsSnoc(init, last);
      AppendSnoc(JoinSegments(init) + [""], last, t);
    } else {
      assert segs[..m] + [segs[m] + [t]] == [segs[0] + [t]];
    }
  }

  lemma SplitLast<T>(xs: seq<T>)
    requires |xs| > 0
    ensures xs == xs[..|xs| - 1] + [xs[|xs| - 1]]
  {
  }

  lemma AppendSnoc<T>(a: seq<T>, l: seq<T>, t: T)
    ensures a + (l + [t]) == (a + l) + [t]
  {
  }

  lemma JoinSegmentsSnoc(init: seq<seq<string>>, last: seq<string>)
    requires |init| >= 1
    ensures JoinSegments(init + [last]) == JoinSegments(init) + [""] + last
  {
    assert (init + [last])[..|init|] == init;
  }

  /** Splitting then joining gives back the columns. */
  lemma {:induction false} SegmentsJoin(ts: seq<string>)
    ensures JoinSegments(Segments(ts)) == ts
    decreases |ts|
  {
    if |ts| > 0 {
      var n := |ts| - 1;
      SegmentsJoin(ts[..n]);
      var prev := Segments(ts[..n]);
      SplitLast(ts);
      SegmentsAppend(ts[..n], ts[n]);
      if ts[n] == "" {
        JoinSegmentsOpen(prev);
      } else {
        JoinSegmentsExtend(prev, ts[n]);
      }
    }
  }

  /** No run holds a blank column. */
  lemma {:induction false} SegmentsNoBlank(ts: seq<string>)
    ensures forall s :: 0 <= s < |Segments(ts)| ==> NoBlank(Segments(ts)[s])
    decreases |ts|
  {
    if |ts| > 0 {
      var n := |ts| - 1;
      SegmentsNoBlank(ts[..n]);
    }
  }

  /** Joining runs that hold no blank and splitting again gives back the runs. */
  lemma {:induction false} JoinSegmentsSplit(segs: seq<seq<string>>)
    requires |segs| >= 1 && forall s :: 0 <= s < |segs| ==> NoBlank(segs[s])
    ensures Segments(JoinSegments(segs)) == segs
    decreases |segs|, |segs[|segs| - 1]|
  {
    var m := |segs| - 1;
    var last := segs[m];
    SplitLast(segs);
    if |last| == 0 {
      if m > 0 {
        var init := segs[..m];
        JoinSegmentsSplit(init);
        JoinSegmentsOpen(init);
        SegmentsAppend(JoinSegments(init), "");
      }
    } else {
      var front := last[..|last| - 1];
      var t := last[|last| - 1];
      var shorter := segs[..m] + [front];
      assert shorter[..m] == segs[..m] && shorter[m] == front;
      assert forall s :: 0 <= s < |shorter| ==> NoBlank(shorter[s]);
      JoinSegmentsSplit(shorter);
      JoinSegmentsExtend(shorter, t);
      SplitLast(last);
      SegmentsAppend(JoinSegments(shorter), t);
    }
  }

  /** How one more column changes the runs. */
  lemma SegmentsAppend(ts: seq<string>, t: string)
    ensures var prev := Segments(ts);
      Segments(ts + [t]) == if t == "" then prev + [[]] else prev[..|prev| - 1] + [prev[|prev| - 1] + [t]]
  {
    assert (ts + [t])[..|ts|] == ts;
  }

  function Blanks(ts: seq<string>): nat
  {
    if |ts| == 0 then 0 else Blanks(ts[..|ts| - 1]) + (if ts[|ts| - 1] == "" then 1 else 0)
  }

  /** There is exactly one more run than there are blank columns. */
  lemma {:induction false} SegmentsCount(ts: seq<string>)
    ensures |Segments(ts)| == Blanks(ts) + 1
    decreases |ts|
  {
    if |ts| > 0 {
      SegmentsCount(ts[..|ts| - 1]);
    }
  }

  /** The runs laid end to end. */
  function Concat<T>(gs: seq<seq<T>>): seq<T>
  {
    if |gs| == 0 then [] else Concat(gs[..|gs| - 1]) + gs[|gs| - 1]
  }

  /** The non-blank columns, in order. */
  function NonBlank(ts: seq<string>): (r: seq<string>)
    ensures NoBlank(r)
  {
    if |ts| == 0 then []
    else NonBlank(ts[..|ts| - 1]) + (if ts[|ts| - 1] == "" then [] else [ts[|ts| - 1]])
  }

  lemma ConcatExtendLast<T>(gs: seq<seq<T>>, x: T)
    requires |gs| >= 1
    ensures var m := |gs| - 1;
            Concat(gs[..m] + [gs[m] + [x]]) == Concat(gs) + [x]
  {
    var m := |gs| - 1;
    var ext := gs[..m] + [gs[m] + [x]];
    assert ext[..m] == gs[..m];
  }

  lemma ConcatSnoc<T>(gs: seq<seq<T>>, g: seq<T>)
    ensures Concat(gs + [g]) == Concat(gs) + g
  {
    assert (gs + [g])[..|gs|] == gs;
  }

  /** Laying the runs end to end gives the non-blank columns: no column is lost or moved. */
  lemma {:induction false} ConcatSegments(ts: seq<string>)
    ensures Concat(Segments(ts)) == NonBlank(ts)
    decreases |ts|
  {
    if |ts| > 0 {
      var n := |ts| - 1;
      ConcatSegments(ts[..n]);
      var prev := Segments(ts[..n]);
      if ts[n] == "" {
        ConcatSnoc(prev, []);
      } else {
        ConcatExtendLast(prev, ts[n]);
      }
    }
  }

  /** Dropping an empty last problem keeps every number. */
  lemma ProblemsConcat(groups: seq<seq<nat>>)
    requires |groups| >= 1
    ensures Concat(Problems(groups)) == Concat(groups)
  {
    var m := |groups| - 1;
    if groups[m] == [] {
      assert groups == groups[..m] + [groups[m]];
      ConcatSnoc(groups[..m], []);
    }
  }

  /** Parsing the runs one by one parses their concatenation. */
  lemma {:induction false} ConcatParse(segs: seq<seq<string>>)
    requires ParseSegments(segs).Some?
    ensures ParseNats(Concat(segs)).Some?
    ensures Concat(ParseSegments(segs).value) == ParseNats(Concat(segs)).value
    decreases |segs|
  {
    if |segs| > 0 {
      var m := |segs| - 1;
      var init := segs[..m];
      var groups := ParseSegments(segs).value;
      assert ParseSegments(init).Some? && ParseSegments(init).value == groups[..m] by {
        assert forall s :: 0 <= s < m ==> init[s] == segs[s];
      }
      ConcatParse(init);
      assert ParseNats(segs[m]).Some? && groups[m] == ParseNats(segs[m]).value;
      ParseNatsAppend(Concat(init), segs[m]);
    }
  }

  /** Parsing two lists of numerals one after the other parses their concatenation. */
  lemma ParseNatsAppend(a: seq<string>, b: seq<string>)
    requires ParseNats(a).Some? && ParseNats(b).Some?
    ensures ParseNats(a + b) == Some(ParseNats(a).value + ParseNats(b).value)
  {
    forall i | 0 <= i < |a + b| ensures ParseNat((a + b)[i]).Some? {
      if i >= |a| {
        assert (a + b)[i] == b[i - |a|];
      }
    }
    assert ParseNats(a + b).value == ParseNats(a).value + ParseNats(b).value;
  }

  /**
   * Every number of a non-blank column lands in exactly one problem, in
   * column order, the last run included even without a blank column after it.
   */
  lemma ProblemsKeepNumbers(cols: seq<string>)
    requires ParseSegments(Segments(TrimAll(cols))).Some?
    ensures var ts := TrimAll(cols);
            ParseNats(NonBlank(ts)).Some?
            && Concat(Problems(ParseSegments(Segments(ts)).value)) == ParseNats(NonBlank(ts)).value
  {
    var ts := TrimAll(cols);
    ConcatSegments(ts);
    ConcatParse(Segments(ts));
    ProblemsConcat(ParseSegments(Segments(ts)).value);
  }

  /** Every run's numbers, each parsed; `None` when some non-blank column is not a number. */
  function ParseSegments(segs: seq<seq<string>>): (r: Option<seq<seq<nat>>>)
    ensures r.Some? <==> forall s :: 0 <= s < |segs| ==> ParseNats(segs[s]).Some?
    ensures r.Some? ==> |r.value| == |segs|
    ensures r.Some? ==> forall s :: 0 <= s < |segs| ==> r.value[s] == ParseNats(segs[s]).value
  {
    if forall s :: 0 <= s < |segs| ==> ParseNats(segs[s]).Some? then
      Some(seq(|segs|, s requires 0 <= s < |segs| => ParseNats(segs[s]).value))
    else None
  }

  /** `arg_vecs` once the fold is done: every run, the last one only when it is not empty. */
  function Problems(groups: seq<seq<nat>>): seq<seq<nat>>
    requires |groups| >= 1
  {
    if groups[|groups| - 1] == [] then groups[..|groups| - 1] else groups
  }

  /** The sum of the problems' answers, problem `i` with operator `i`. */
  function ProblemsTotal(ops: seq<Op>, problems: seq<seq<nat>>): nat
    requires |problems| <= |ops|
  {
    if |problems| == 0 then 0
    else ProblemsTotal(ops, problems[..|problems| - 1])
         + Reduce(ops[|problems| - 1], problems[|problems| - 1])
  }

  /**
   * What `grand_cephalopod_total` computes, as a function of its lines: `None`
   * where the source panics (no lines, a bad operator or number, more
   * problems than operators).
   */
  ghost function CephalopodAnswer(lines: seq<string>): Option<nat>
  {
    if |lines| == 0 then None
    else
      var ops := ParseOps(Words(lines[|lines| - 1]));
      var cols := Transposed(lines[..|lines| - 1], |lines[0]|);
      var groups := ParseSegments(Segments(TrimAll(cols)));
      if ops.None? || groups.None? then None
      else
        var problems := Problems(groups.value);
        if |problems| > |ops.value| then None else Some(ProblemsTotal(ops.value, problems))
  }

  /**
   * `grand_cephalopod_total`. The width is the first line's length, taken
   * before the operator line is popped; the columns are built line by line
   * with `zip`, then scanned left to right, a blank column closing the
   * current problem and any other column adding one number to it.
   */
  method CephalopodTotal(lines: seq<string>) returns (total: Option<nat>)
    ensures total == CephalopodAnswer(lines)
  {
    if |lines| == 0 {
      return None;
    }
    var numCols := |lines[0]|;
    var ops := ParseOps(Words(lines[|lines| - 1]));
    if ops.None? {
      return None;
    }
    var cols := TransposeLines(lines[..|lines| - 1], numCols);
    var groups := GroupColumns(cols);
    if groups.None? {
      return None;
    }
    var argVecs := groups.value;
    if |argVecs| > |ops.value| {
      return None;
    }
    var sum := SumProblems(ops.value, argVecs);
    return Some(sum);
  }

  /** The `zip` fold: start from `numCols` empty strings and push each line's characters. */
  method TransposeLines(rows: seq<string>, numCols: nat) returns (cols: seq<string>)
    ensures cols == Transposed(rows, numCols)
  {
    cols := seq(numCols, _ => "");
    var k := 0;
    assert cols == Transposed(rows[..0], numCols);
    while k < |rows|
      invariant k <= |rows|
      invariant cols == Transposed(rows[..k], numCols)
    {
      var line := rows[k];
      var width := if |line| < |cols| then |line| else |cols|;
      cols := seq(width, c requires 0 <= c < width => cols[c] + [line[c]]);
      TransposedSnoc(rows, k, numCols);
      k := k + 1;
    }
    assert rows[..|rows|] == rows;
  }

  /**
   * The fold that fills `arg_vecs`: a blank column pushes the current problem
   * (even an empty one) and starts a new one; any other column is parsed and
   * appended. The last problem is pushed only when it is not empty.
   */
  method GroupColumns(cols: seq<string>) returns (r: Option<seq<seq<nat>>>)
    ensures var groups := ParseSegments(Segments(TrimAll(cols)));
            r == if groups.Some? then Some(Problems(groups.value)) else None
  {
    ghost var ts := TrimAll(cols);
    var argVecs: seq<seq<nat>> := [];
    var current: seq<nat> := [];
    var c := 0;
    assert Segments(ts[..0]) == [[]];
    ParseNoSegments();
    assert argVecs + [current] == [[]];
    while c < |cols|
      invariant c <= |cols|
      invariant ParseSegments(Segments(ts[..c])) == Some(argVecs + [current])
    {
      var t := Trim(cols[c]);
      if t == "" {
        GroupOpenStep(ts, c, argVecs, current);
        argVecs := argVecs + [current];
        current := [];
      } else {
        var n := ParseNat(t);
        if n.None? {
          SegmentsParseFails(ts, c);
          return None;
        }
        GroupExtendStep(ts, c, argVecs, current);
        current := current + [n.value];
      }
      c := c + 1;
    }
    assert ts[..|cols|] == ts;
    assert Problems(argVecs + [current]) == if current == [] then argVecs else argVecs + [current] by {
      assert (argVecs + [current])[..|argVecs|] == argVecs;
    }
    if current != [] {
      argVecs := argVecs + [current];
    }
    return Some(argVecs);
  }

  /** The closing fold: problem `i` folded with operator `i`, the answers summed. */
  method SumProblems(ops: seq<Op>, problems: seq<seq<nat>>) returns (sum: nat)
    requires |problems| <= |ops|
    ensures sum == ProblemsTotal(ops, problems)
  {
    sum := 0;
    var p := 0;
    while p < |problems|
      invariant p <= |problems|
      invariant sum == ProblemsTotal(ops, problems[..p])
    {
      assert problems[..p + 1][..p] == problems[..p];
      sum := sum + Reduce(ops[p], problems[p]);
      p := p + 1;
    }
    assert problems[..p] == problems;
  }

  lemma ParseNoSegments()
    ensures ParseSegments([[]]) == Some([[]])
  {
    var e: seq<string> := [];
    assert ParseNats(e) == Some([]);
    var r := ParseSegments([e]);
    assert r.Some?;
    assert |r.value| == 1;
    assert r.value[0] == [];
    assert r.value == [[]];
  }

  /** A blank column closes the current problem and opens an empty one. */
  lemma GroupOpenStep(ts: seq<string>, c: nat, done: seq<seq<nat>>, current: seq<nat>)
    requires c < |ts| && ts[c] == ""
    requires ParseSegments(Segments(ts[..c])) == Some(done + [current])
    ensures ParseSegments(Segments(ts[..c + 1])) == Some(done + [current] + [[]])
  {
    SegmentsSnoc(ts, c);
    ParseSegmentsOpen(Segments(ts[..c]), done + [current]);
  }

  /** A column holding a number appends it to the current problem. */
  lemma GroupExtendStep(ts: seq<string>, c: nat, done: seq<seq<nat>>, current: seq<nat>)
    requires c < |ts| && ts[c] != "" && ParseNat(ts[c]).Some?
    requires ParseSegments(Segments(ts[..c])) == Some(done + [current])
    ensures ParseSegments(Segments(ts[..c + 1])) == Some(done + [current + [ParseNat(ts[c]).value]])
  {
    SegmentsSnoc(ts, c);
    ParseSegmentsExtend(Segments(ts[..c]), done, current, ts[c]);
  }

  lemma ParseSegmentsOpen(segs: seq<seq<string>>, groups: seq<seq<nat>>)
    requires ParseSegments(segs) == Some(groups)
    ensures ParseSegments(segs + [[]]) == Some(groups + [[]])
  {
    var r := ParseSegments(segs + [[]]);
    assert ParseNats((segs + [[]])[|segs|]) == Some([]);
    assert r.Some?;
    assert r.value == groups + [[]];
  }

  lemma ParseSegmentsExtend(segs: seq<seq<string>>, done: seq<seq<nat>>, current: seq<nat>, t: string)
    requires |segs| >= 1 && ParseSegments(segs) == Some(done + [current]) && ParseNat(t).Some?
    ensures var m := |segs| - 1;
            ParseSegments(segs[..m] + [segs[m] + [t]]) == Some(done + [current + [ParseNat(t).value]])
  {
    var m := |segs| - 1;
    var ext := segs[..m] + [segs[m] + [t]];
    assert ParseNats(segs[m]) == Some(current);
    var last := ParseNats(ext[m]);
    assert last.Some?;
    assert last.value == current + [ParseNat(t).value];
    var r := ParseSegments(ext);
    assert r.Some?;
    assert r.value == done + [current + [ParseNat(t).value]];
  }

  lemma TransposedSnoc(rows: seq<string>, k: nat, numCols: nat)
    requires k < |rows|
    ensures var prev := Transposed(rows[..k], numCols);
            var line := rows[k];
            var width := if |line| < |prev| then |line| else |prev|;
            Transposed(rows[..k + 1], numCols) == seq(width, c requires 0 <= c < width => prev[c] + [line[c]])
  {
    var prev := Transposed(rows[..k], numCols);
    var line := rows[k];
    var width := if |line| < |prev| then |line| else |prev|;
    var next := Transposed(rows[..k + 1], numCols);
    assert rows[..k + 1][..k] == rows[..k];
    assert |next| == width;
    forall c | 0 <= c < width ensures next[c] == prev[c] + [line[c]] {
      assert |next[c]| == k + 1;
      forall j | 0 <= j < k + 1 ensures next[c][j] == (prev[c] + [line[c]])[j] {
        if j < k {
          assert rows[..k + 1][j] == rows[..k][j];
        }
      }
    }
  }

  /** How one more column changes the parsed runs. */
  lemma SegmentsSnoc(ts: seq<string>, c: nat)
    requires c < |ts|
    ensures Segments(ts[..c + 1]) ==
              var prev := Segments(ts[..c]);
              if ts[c] == "" then prev + [[]]
              else prev[..|prev| - 1] + [prev[|prev| - 1] + [ts[c]]]
  {
    assert ts[..c + 1][..c] == ts[..c];
  }

  /** A column that does not parse makes every later prefix fail to parse. */
  lemma SegmentsParseFails(ts: seq<string>, c: nat)
    requires c < |ts| && ts[c] != "" && ParseNat(ts[c]).None?
    ensures ParseSegments(Segments(ts)).None?
  {
    SegmentsJoin(ts);
    var segs := Segments(ts);
    assert ts[c] in ts;
    assert ts[c] in JoinSegments(segs);
    JoinSegmentsMember(segs, ts[c]);
  }

  /** A non-blank member of the joined columns sits in one of the runs. */
  lemma {:induction false} JoinSegmentsMember(segs: seq<seq<string>>, t: string)
    requires |segs| >= 1 && t != "" && t in JoinSegments(segs)
    ensures exists s :: 0 <= s < |segs| && t in segs[s]
    decreases |segs|
  {
    if |segs| > 1 {
      var m := |segs| - 1;
      if t in segs[m] {
      } else {
        JoinSegmentsMember(segs[..m], t);
        var s :| 0 <= s < m && t in segs[..m][s];
        assert segs[s] == segs[..m][s];
      }
    }
  }
}
