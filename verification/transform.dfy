/**
  `Transform` (sequence.go:219-317): given two sequences `a` and `b` made
  concurrently on the same document, computes `a'` and `b'` such that `a`
  followed by `b'` and `b` followed by `a'` reach the same document. The loop
  walks both lists at once: inserts go first (those of `a` before those of
  `b`), and two heads that read the document are matched against each other,
  the overlap handled and the rest of the longer one left in place.
 */
module Transformation {
  import opened Operations
  import opened Sequences
  import opened Results
  import opened Documents

  /** Where one turn of the loop leaves the two remaining lists and the two outputs. */
  datatype Turn = Done | Stuck | Next(ops1: seq<Op>, ops2: seq<Op>, a: Sequence, b: Sequence)

  /**
    One turn of the loop (sequence.go:231-315). An insert of `a` comes first
    and becomes a retain in `b'`; then an insert of `b`, which becomes a
    retain in `a'`. `Stuck` is the error return when one list ran out while
    the other still reads (sequence.go:248-250). The rest of the longer head
    replaces it in its list, as the source overwrites `ops1[i1]` or `ops2[i2]`.
   */
  function TransformTurn(ops1: seq<Op>, ops2: seq<Op>, a: Sequence, b: Sequence): (t: Turn)
    ensures t.Done? <==> ops1 == [] && ops2 == []
    ensures t.Next? ==> |t.ops1| + |t.ops2| < |ops1| + |ops2|
  {
    if ops1 == [] && ops2 == [] then Done
    else if ops1 != [] && ops1[0].Insert? then
      Next(ops1[1..], ops2, AddInsert(a, ops1[0].s), AddRetain(b, |ops1[0].s|))
    else if ops2 != [] && ops2[0].Insert? then
      Next(ops1, ops2[1..], AddRetain(a, |ops2[0].s|), AddInsert(b, ops2[0].s))
    else if ops1 == [] || ops2 == [] then Stuck
    else
      var x, y, r1, r2 := ops1[0], ops2[0], ops1[1..], ops2[1..];
      if x.Retain? && y.Retain? then
        if x.n < y.n then Next(r1, ops2[0 := Retain(y.n - x.n)], AddRetain(a, x.n), AddRetain(b, x.n))
        else if x.n == y.n then Next(r1, r2, AddRetain(a, x.n), AddRetain(b, x.n))
        else Next(ops1[0 := Retain(x.n - y.n)], r2, AddRetain(a, y.n), AddRetain(b, y.n))
      else if x.Retain? then
        if x.n < y.n then Next(r1, ops2[0 := Delete(y.n - x.n)], a, AddDelete(b, x.n))
        else if x.n == y.n then Next(r1, r2, a, AddDelete(b, x.n))
        else Next(ops1[0 := Retain(x.n - y.n)], r2, a, AddDelete(b, y.n))
      else if y.Retain? then
        if x.n < y.n then Next(r1, ops2[0 := Retain(y.n - x.n)], AddDelete(a, x.n), b)
        else if x.n == y.n then Next(r1, r2, AddDelete(a, x.n), b)
        else Next(ops1[0 := Delete(x.n - y.n)], r2, AddDelete(a, y.n), b)
      else
        if x.n < y.n then Next(r1, ops2[0 := Delete(y.n - x.n)], a, b)
        else if x.n == y.n then Next(r1, r2, a, b)
        else Next(ops1[0 := Delete(x.n - y.n)], r2, a, b)
  }

  /** The loop of `Transform`, from the given remaining lists and outputs so far. */
  function TransformLoop(ops1: seq<Op>, ops2: seq<Op>, a: Sequence, b: Sequence): (r: Result<(Sequence, Sequence)>)
    decreases |ops1| + |ops2|
  {
    match TransformTurn(ops1, ops2, a, b)
    case Done => Ok((a, b))
    case Stuck => Err(IncompatibleLengths)
    case Next(o1, o2, a2, b2) => TransformLoop(o1, o2, a2, b2)
  }

  /**
    `Transform` checks that both sequences start from documents of the same
    length, then runs the loop from two empty outputs. Both results are in
    normal form with counters that agree with their operations; `a'` starts
    where `b` ends, `b'` where `a` ends, and the two end at the same length.
   */
  function Transform(a: Sequence, b: Sequence): (r: Result<(Sequence, Sequence)>)
    ensures a.baseLen != b.baseLen ==> r == Err(IncompatibleLengths)
    ensures r.Ok? ==> Valid(r.value.0) && Valid(r.value.1) && Normal(r.value.0.ops) && Normal(r.value.1.ops)
    ensures r.Ok? ==> BaseOf(a.ops) == BaseOf(b.ops)
    ensures r.Ok? ==> r.value.0.baseLen == TargetOf(b.ops) && r.value.1.baseLen == TargetOf(a.ops)
    ensures r.Ok? ==> r.value.0.targetLen == r.value.1.targetLen
  {
    if a.baseLen != b.baseLen then Err(IncompatibleLengths)
    else
      var r := TransformLoop(a.ops, b.ops, NewSequence(), NewSequence());
      if r.Ok? then TransformLoopShape(a.ops, b.ops, NewSequence(), NewSequence()); r else r
  }

  // ---------------------------------------------------------------------
  // Lengths and normal form
  // ---------------------------------------------------------------------

  /**
    A turn reads the same number of characters from both lists, and each
    output reads what the other list writes.
   */
  lemma TurnLengths(ops1: seq<Op>, ops2: seq<Op>, a: Sequence, b: Sequence)
    requires TransformTurn(ops1, ops2, a, b).Next?
    ensures var t := TransformTurn(ops1, ops2, a, b);
      && BaseOf(t.ops1) + BaseOf(ops2) == BaseOf(ops1) + BaseOf(t.ops2)
      && BaseOf(t.a.ops) + TargetOf(t.ops2) == BaseOf(a.ops) + TargetOf(ops2)
      && BaseOf(t.b.ops) + TargetOf(t.ops1) == BaseOf(b.ops) + TargetOf(ops1)
      && TargetOf(t.a.ops) + TargetOf(b.ops) == TargetOf(t.b.ops) + TargetOf(a.ops)
  {
    if !(ops1 != [] && ops1[0].Insert?) && !(ops2 != [] && ops2[0].Insert?) && ops1 != [] && ops2 != [] {
      MatchedLengths(ops1, ops2, a, b);
    }
  }

  /** The same for a turn that matches two heads that read the document. */
  lemma MatchedLengths(ops1: seq<Op>, ops2: seq<Op>, a: Sequence, b: Sequence)
    requires ops1 != [] && ops2 != [] && !ops1[0].Insert? && !ops2[0].Insert?
    ensures var t := TransformTurn(ops1, ops2, a, b);
      && t.Next?
      && BaseOf(t.ops1) + BaseOf(ops2) == BaseOf(ops1) + BaseOf(t.ops2)
      && BaseOf(t.a.ops) + TargetOf(t.ops2) == BaseOf(a.ops) + TargetOf(ops2)
      && BaseOf(t.b.ops) + TargetOf(t.ops1) == BaseOf(b.ops) + TargetOf(ops1)
      && TargetOf(t.a.ops) + TargetOf(b.ops) == TargetOf(t.b.ops) + TargetOf(a.ops)
  {
    var x, y := ops1[0], ops2[0];
    if x.n < y.n {
      LengthsUpdate(ops2, if y.Retain? then Retain(y.n - x.n) else Delete(y.n - x.n));
    } else if x.n > y.n {
      LengthsUpdate(ops1, if x.Retain? then Retain(x.n - y.n) else Delete(x.n - y.n));
    }
  }

  /** The outputs of a turn stay valid and in normal form. */
  lemma TurnKeepsForm(ops1: seq<Op>, ops2: seq<Op>, a: Sequence, b: Sequence)
    requires TransformTurn(ops1, ops2, a, b).Next?
    ensures var t := TransformTurn(ops1, ops2, a, b);
      && (Valid(a) ==> Valid(t.a)) && (Valid(b) ==> Valid(t.b))
      && (Normal(a.ops) ==> Normal(t.a.ops)) && (Normal(b.ops) ==> Normal(t.b.ops))
  {
    FirstKeepsForm(ops1, ops2, a, b);
    SecondKeepsForm(ops1, ops2, a, b);
  }

  /** The same for `a'` alone. */
  lemma FirstKeepsForm(ops1: seq<Op>, ops2: seq<Op>, a: Sequence, b: Sequence)
    requires TransformTurn(ops1, ops2, a, b).Next?
    ensures var t := TransformTurn(ops1, ops2, a, b);
      (Valid(a) ==> Valid(t.a)) && (Normal(a.ops) ==> Normal(t.a.ops))
  {
  }

  /** The same for `b'` alone. */
  lemma SecondKeepsForm(ops1: seq<Op>, ops2: seq<Op>, a: Sequence, b: Sequence)
    requires TransformTurn(ops1, ops2, a, b).Next?
    ensures var t := TransformTurn(ops1, ops2, a, b);
      (Valid(b) ==> Valid(t.b)) && (Normal(b.ops) ==> Normal(t.b.ops))
  {
  }

  /** A turn leaves no zero-length operation behind in the remaining lists. */
  lemma TurnKeepsNonEmpty(ops1: seq<Op>, ops2: seq<Op>, a: Sequence, b: Sequence)
    requires TransformTurn(ops1, ops2, a, b).Next?
    requires NonEmptyOps(ops1) && NonEmptyOps(ops2)
    ensures var t := TransformTurn(ops1, ops2, a, b); NonEmptyOps(t.ops1) && NonEmptyOps(t.ops2)
  {
    if ops1 != [] && ops1[0].Insert? {
      NonEmptyTail(ops1);
    } else if ops2 != [] && ops2[0].Insert? {
      NonEmptyTail(ops2);
    } else {
      var x, y := ops1[0], ops2[0];
      if x.n < y.n {
        NonEmptyTail(ops1);
        NonEmptyUpdate(ops2, if y.Retain? then Retain(y.n - x.n) else Delete(y.n - x.n));
      } else if x.n == y.n {
        NonEmptyTail(ops1);
        NonEmptyTail(ops2);
      } else {
        NonEmptyUpdate(ops1, if x.Retain? then Retain(x.n - y.n) else Delete(x.n - y.n));
        NonEmptyTail(ops2);
      }
    }
  }

  /**
    What the loop returns, when it succeeds: the lists read documents of the
    same length, each output grew by what the other list writes, and the
    outputs grew by the same target length.
   */
  lemma {:induction false} TransformLoopShape(ops1: seq<Op>, ops2: seq<Op>, a: Sequence, b: Sequence)
    requires TransformLoop(ops1, ops2, a, b).Ok?
    ensures var r := TransformLoop(ops1, ops2, a, b).value;
      && BaseOf(ops1) == BaseOf(ops2)
      && BaseOf(r.0.ops) == BaseOf(a.ops) + TargetOf(ops2)
      && BaseOf(r.1.ops) == BaseOf(b.ops) + TargetOf(ops1)
      && TargetOf(r.0.ops) + TargetOf(b.ops) == TargetOf(r.1.ops) + TargetOf(a.ops)
      && (Valid(a) ==> Valid(r.0)) && (Valid(b) ==> Valid(r.1))
      && (Normal(a.ops) ==> Normal(r.0.ops)) && (Normal(b.ops) ==> Normal(r.1.ops))
    decreases |ops1| + |ops2|
  {
    var t := TransformTurn(ops1, ops2, a, b);
    if t.Next? {
      TurnLengths(ops1, ops2, a, b);
      TurnKeepsForm(ops1, ops2, a, b);
      TransformLoopShape(t.ops1, t.ops2, t.a, t.b);
    }
  }

  /** With no zero-length operation in either list, a turn gets stuck only on lists of different base lengths. */
  lemma StuckMeansMismatch(ops1: seq<Op>, ops2: seq<Op>, a: Sequence, b: Sequence)
    requires TransformTurn(ops1, ops2, a, b).Stuck?
    requires NonEmptyOps(ops1) && NonEmptyOps(ops2)
    ensures BaseOf(ops1) != BaseOf(ops2)
  {
    if ops1 == [] {
      assert Consumed(ops2[0]) > 0;
    } else {
      assert Consumed(ops1[0]) > 0;
    }
  }

  /** The loop succeeds on lists of the same base length without zero-length operations. */
  lemma {:induction false} TransformLoopSucceeds(ops1: seq<Op>, ops2: seq<Op>, a: Sequence, b: Sequence)
    requires BaseOf(ops1) == BaseOf(ops2)
    requires NonEmptyOps(ops1) && NonEmptyOps(ops2)
    ensures TransformLoop(ops1, ops2, a, b).Ok?
    decreases |ops1| + |ops2|
  {
    var t := TransformTurn(ops1, ops2, a, b);
    if t.Stuck? {
      StuckMeansMismatch(ops1, ops2, a, b);
    } else if t.Next? {
      TurnLengths(ops1, ops2, a, b);
      TurnKeepsNonEmpty(ops1, ops2, a, b);
      TransformLoopSucceeds(t.ops1, t.ops2, t.a, t.b);
    }
  }

  // ---------------------------------------------------------------------
  // The document both sides reach
  // ---------------------------------------------------------------------

  /** How many characters of the original document a turn reads from each list. */
  function Reads(ops1: seq<Op>, ops2: seq<Op>): (c: nat)
    ensures c <= BaseOf(ops1) && c <= BaseOf(ops2)
  {
    if ops1 != [] && ops1[0].Insert? then 0
    else if ops2 != [] && ops2[0].Insert? then 0
    else if ops1 != [] && ops2 != [] then
      if ops1[0].n <= ops2[0].n then ops1[0].n else ops2[0].n
    else 0
  }

  /**
    The document reached from d by applying both lists, in either order: a
    character of d survives when neither list deletes it, and where both
    lists insert at the same place the text of the first list comes first.
    It follows the same walk as the loop.
   */
  function Merged<T>(ops1: seq<Op>, ops2: seq<Op>, d: seq<T>, lift: char -> T): seq<T>
    requires |d| == BaseOf(ops1) && |d| == BaseOf(ops2)
    decreases |ops1| + |ops2|
  {
    if ops1 != [] && ops1[0].Insert? then Lift(ops1[0].s, lift) + Merged(ops1[1..], ops2, d, lift)
    else if ops2 != [] && ops2[0].Insert? then Lift(ops2[0].s, lift) + Merged(ops1, ops2[1..], d, lift)
    else if ops1 == [] || ops2 == [] then []
    else
      var x, y := ops1[0], ops2[0];
      var m := if x.n <= y.n then x.n else y.n;
      var o1 := if x.n <= y.n then ops1[1..] else ops1[0 := if x.Retain? then Retain(x.n - y.n) else Delete(x.n - y.n)];
      var o2 := if y.n <= x.n then ops2[1..] else ops2[0 := if y.Retain? then Retain(y.n - x.n) else Delete(y.n - x.n)];
      LengthsUpdate(ops1, if x.Retain? then Retain(x.n - m) else Delete(x.n - m));
      LengthsUpdate(ops2, if y.Retain? then Retain(y.n - m) else Delete(y.n - m));
      (if x.Retain? && y.Retain? then d[..m] else []) + Merged(o1, o2, d[m..], lift)
  }

  /** What one turn adds: to what the first list writes, to what the second writes, and to the merged document. */
  datatype Gain<T> = Gain(first: seq<T>, second: seq<T>, both: seq<T>)

  /** The gain of a turn that reads d1 from both lists. */
  function Gained<T>(ops1: seq<Op>, ops2: seq<Op>, d1: seq<T>, lift: char -> T): Gain<T>
    requires |d1| == Reads(ops1, ops2)
  {
    if ops1 != [] && ops1[0].Insert? then Gain(Lift(ops1[0].s, lift), [], Lift(ops1[0].s, lift))
    else if ops2 != [] && ops2[0].Insert? then Gain([], Lift(ops2[0].s, lift), Lift(ops2[0].s, lift))
    else if ops1 == [] || ops2 == [] then Gain([], [], [])
    else if ops1[0].Retain? && ops2[0].Retain? then Gain(d1, d1, d1)
    else if ops1[0].Retain? then Gain(d1, [], [])
    else if ops2[0].Retain? then Gain([], d1, [])
    else Gain([], [], [])
  }

  /**
    The lengths a state of the loop must have for its meaning to be defined:
    output `a` has read ua characters, `b` has read ub, and both lists read
    the rest d of the original document.
   */
  ghost predicate Fits(ops1: seq<Op>, ops2: seq<Op>, a: Sequence, b: Sequence, ua: nat, ub: nat, dlen: nat) {
    ua == BaseOf(a.ops) && ub == BaseOf(b.ops) && dlen == BaseOf(ops1) && dlen == BaseOf(ops2)
  }

  /**
    A turn from (ops1, ops2) to (o1, o2) on d1 + d2: each list writes its gain
    and then what its successor writes from d2, and the merged document is
    the common gain followed by the merged document of the successors.
   */
  ghost predicate Splits<T>(ops1: seq<Op>, ops2: seq<Op>, o1: seq<Op>, o2: seq<Op>, d1: seq<T>, d2: seq<T>, lift: char -> T)
    requires |d1| == Reads(ops1, ops2) && |d1 + d2| == BaseOf(ops1) && |d1 + d2| == BaseOf(ops2)
  {
    var g := Gained(ops1, ops2, d1, lift);
    && |d2| == BaseOf(o1) && |d2| == BaseOf(o2)
    && Run(ops1, d1 + d2, lift) == g.first + Run(o1, d2, lift)
    && Run(ops2, d1 + d2, lift) == g.second + Run(o2, d2, lift)
    && Merged(ops1, ops2, d1 + d2, lift) == g.both + Merged(o1, o2, d2, lift)
  }

  /**
    A turn that grows the outputs from (a, b) to (a2, b2): `a2` reads what the
    second list gained and writes the common gain after what `a` writes, and
    the same for `b2` with the first list.
   */
  ghost predicate Grows<T>(a: Sequence, b: Sequence, a2: Sequence, b2: Sequence, ua: seq<T>, ub: seq<T>, g: Gain<T>, lift: char -> T)
    requires |ua| == BaseOf(a.ops) && |ub| == BaseOf(b.ops)
  {
    && |ua + g.second| == BaseOf(a2.ops) && |ub + g.first| == BaseOf(b2.ops)
    && Run(a2.ops, ua + g.second, lift) == Run(a.ops, ua, lift) + g.both
    && Run(b2.ops, ub + g.first, lift) == Run(b.ops, ub, lift) + g.both
  }

  /** Two retains: the overlap is kept by both; the second head is longer and its rest stays. */
  lemma RetainShorterRetainSplits<T>(ops1: seq<Op>, ops2: seq<Op>, d1: seq<T>, d2: seq<T>, lift: char -> T)
    requires ops1 != [] && ops2 != [] && ops1[0].Retain? && ops2[0].Retain? && ops1[0].n < ops2[0].n && |d1| == ops1[0].n
    requires |d1 + d2| == BaseOf(ops1) && |d1 + d2| == BaseOf(ops2)
    ensures Splits(ops1, ops2, ops1[1..], ops2[0 := Retain(ops2[0].n - ops1[0].n)], d1, d2, lift)
  {
    assert Gained(ops1, ops2, d1, lift) == Gain(d1, d1, d1);
    RunRetainHead(ops1, d1, d2, lift);
    RunRetainRest(ops2, ops2[0 := Retain(ops2[0].n - ops1[0].n)], ops1[0].n, d1, d2, lift);
    MergedRetainShorterRetain(ops1, ops2, d1, d2, lift);
  }

  lemma MergedRetainShorterRetain<T>(ops1: seq<Op>, ops2: seq<Op>, d1: seq<T>, d2: seq<T>, lift: char -> T)
    requires ops1 != [] && ops2 != [] && ops1[0].Retain? && ops2[0].Retain? && ops1[0].n < ops2[0].n && |d1| == ops1[0].n
    requires |d1 + d2| == BaseOf(ops1) && |d1 + d2| == BaseOf(ops2)
    ensures |d2| == BaseOf(ops1[1..]) && |d2| == BaseOf(ops2[0 := Retain(ops2[0].n - ops1[0].n)])
    ensures Merged(ops1, ops2, d1 + d2, lift) == d1 + Merged(ops1[1..], ops2[0 := Retain(ops2[0].n - ops1[0].n)], d2, lift)
  {
    assert (d1 + d2)[..|d1|] == d1 && (d1 + d2)[|d1|..] == d2;
  }

  /** Two retains: the overlap is kept by both; both heads are used up. */
  lemma RetainEqualRetainSplits<T>(ops1: seq<Op>, ops2: seq<Op>, d1: seq<T>, d2: seq<T>, lift: char -> T)
    requires ops1 != [] && ops2 != [] && ops1[0].Retain? && ops2[0].Retain? && ops1[0].n == ops2[0].n && |d1| == ops1[0].n
    requires |d1 + d2| == BaseOf(ops1) && |d1 + d2| == BaseOf(ops2)
    ensures Splits(ops1, ops2, ops1[1..], ops2[1..], d1, d2, lift)
  {
    assert Gained(ops1, ops2, d1, lift) == Gain(d1, d1, d1);
    RunRetainHead(ops1, d1, d2, lift);
    RunRetainHead(ops2, d1, d2, lift);
    MergedRetainEqualRetain(ops1, ops2, d1, d2, lift);
  }

  lemma MergedRetainEqualRetain<T>(ops1: seq<Op>, ops2: seq<Op>, d1: seq<T>, d2: seq<T>, lift: char -> T)
    requires ops1 != [] && ops2 != [] && ops1[0].Retain? && ops2[0].Retain? && ops1[0].n == ops2[0].n && |d1| == ops1[0].n
    requires |d1 + d2| == BaseOf(ops1) && |d1 + d2| == BaseOf(ops2)
    ensures |d2| == BaseOf(ops1[1..]) && |d2| == BaseOf(ops2[1..])
    ensures Merged(ops1, ops2, d1 + d2, lift) == d1 + Merged(ops1[1..], ops2[1..], d2, lift)
  {
    assert (d1 + d2)[..|d1|] == d1 && (d1 + d2)[|d1|..] == d2;
  }

  /** Two retains: the overlap is kept by both; the first head is longer and its rest stays. */
  lemma RetainLongerRetainSplits<T>(ops1: seq<Op>, ops2: seq<Op>, d1: seq<T>, d2: seq<T>, lift: char -> T)
    requires ops1 != [] && ops2 != [] && ops1[0].Retain? && ops2[0].Retain? && ops1[0].n > ops2[0].n && |d1| == ops2[0].n
    requires |d1 + d2| == BaseOf(ops1) && |d1 + d2| == BaseOf(ops2)
    ensures Splits(ops1, ops2, ops1[0 := Retain(ops1[0].n - ops2[0].n)], ops2[1..], d1, d2, lift)
  {
    assert Gained(ops1, ops2, d1, lift) == Gain(d1, d1, d1);
    RunRetainRest(ops1, ops1[0 := Retain(ops1[0].n - ops2[0].n)], ops2[0].n, d1, d2, lift);
    RunRetainHead(ops2, d1, d2, lift);
    MergedRetainLongerRetain(ops1, ops2, d1, d2, lift);
  }

  lemma MergedRetainLongerRetain<T>(ops1: seq<Op>, ops2: seq<Op>, d1: seq<T>, d2: seq<T>, lift: char -> T)
    requires ops1 != [] && ops2 != [] && ops1[0].Retain? && ops2[0].Retain? && ops1[0].n > ops2[0].n && |d1| == ops2[0].n
    requires |d1 + d2| == BaseOf(ops1) && |d1 + d2| == BaseOf(ops2)
    ensures |d2| == BaseOf(ops1[0 := Retain(ops1[0].n - ops2[0].n)]) && |d2| == BaseOf(ops2[1..])
    ensures Merged(ops1, ops2, d1 + d2, lift) == d1 + Merged(ops1[0 := Retain(ops1[0].n - ops2[0].n)], ops2[1..], d2, lift)
  {
    assert (d1 + d2)[..|d1|] == d1 && (d1 + d2)[|d1|..] == d2;
  }

  /** A retain of the first list against a delete of the second: the overlap is deleted in b'; the second head is longer and its rest stays. */
  lemma RetainShorterDeleteSplits<T>(ops1: seq<Op>, ops2: seq<Op>, d1: seq<T>, d2: seq<T>, lift: char -> T)
    requires ops1 != [] && ops2 != [] && ops1[0].Retain? && ops2[0].Delete? && ops1[0].n < ops2[0].n && |d1| == ops1[0].n
    requires |d1 + d2| == BaseOf(ops1) && |d1 + d2| == BaseOf(ops2)
    ensures Splits(ops1, ops2, ops1[1..], ops2[0 := Delete(ops2[0].n - ops1[0].n)], d1, d2, lift)
  {
    assert Gained(ops1, ops2, d1, lift) == Gain(d1, [], []);
    RunRetainHead(ops1, d1, d2, lift);
    RunDeleteRest(ops2, ops2[0 := Delete(ops2[0].n - ops1[0].n)], ops1[0].n, d1, d2, lift);
    EmptyConcat(Run(ops2[0 := Delete(ops2[0].n - ops1[0].n)], d2, lift));
    MergedRetainShorterDelete(ops1, ops2, d1, d2, lift);
  }

  lemma MergedRetainShorterDelete<T>(ops1: seq<Op>, ops2: seq<Op>, d1: seq<T>, d2: seq<T>, lift: char -> T)
    requires ops1 != [] && ops2 != [] && ops1[0].Retain? && ops2[0].Delete? && ops1[0].n < ops2[0].n && |d1| == ops1[0].n
    requires |d1 + d2| == BaseOf(ops1) && |d1 + d2| == BaseOf(ops2)
    ensures |d2| == BaseOf(ops1[1..]) && |d2| == BaseOf(ops2[0 := Delete(ops2[0].n - ops1[0].n)])
    ensures Merged(ops1, ops2, d1 + d2, lift) == [] + Merged(ops1[1..], ops2[0 := Delete(ops2[0].n - ops1[0].n)], d2, lift)
  {
    assert (d1 + d2)[..|d1|] == d1 && (d1 + d2)[|d1|..] == d2;
  }

  /** A retain of the first list against a delete of the second: the overlap is deleted in b'; both heads are used up. */
  lemma RetainEqualDeleteSplits<T>(ops1: seq<Op>, ops2: seq<Op>, d1: seq<T>, d2: seq<T>, lift: char -> T)
    requires ops1 != [] && ops2 != [] && ops1[0].Retain? && ops2[0].Delete? && ops1[0].n == ops2[0].n && |d1| == ops1[0].n
    requires |d1 + d2| == BaseOf(ops1) && |d1 + d2| == BaseOf(ops2)
    ensures Splits(ops1, ops2, ops1[1..], ops2[1..], d1, d2, lift)
  {
    assert Gained(ops1, ops2, d1, lift) == Gain(d1, [], []);
    RunRetainHead(ops1, d1, d2, lift);
    RunDeleteHead(ops2, d1, d2, lift);
    EmptyConcat(Run(ops2[1..], d2, lift));
    MergedRetainEqualDelete(ops1, ops2, d1, d2, lift);
  }

  lemma MergedRetainEqualDelete<T>(ops1: seq<Op>, ops2: seq<Op>, d1: seq<T>, d2: seq<T>, lift: char -> T)
    requires ops1 != [] && ops2 != [] && ops1[0].Retain? && ops2[0].Delete? && ops1[0].n == ops2[0].n && |d1| == ops1[0].n
    requires |d1 + d2| == BaseOf(ops1) && |d1 + d2| == BaseOf(ops2)
    ensures |d2| == BaseOf(ops1[1..]) && |d2| == BaseOf(ops2[1..])
    ensures Merged(ops1, ops2, d1 + d2, lift) == [] + Merged(ops1[1..], ops2[1..], d2, lift)
  {
    assert (d1 + d2)[..|d1|] == d1 && (d1 + d2)[|d1|..] == d2;
  }

  /** A retain of the first list against a delete of the second: the overlap is deleted in b'; the first head is longer and its rest stays. */
  lemma RetainLongerDeleteSplits<T>(ops1: seq<Op>, ops2: seq<Op>, d1: seq<T>, d2: seq<T>, lift: char -> T)
    requires ops1 != [] && ops2 != [] && ops1[0].Retain? && ops2[0].Delete? && ops1[0].n > ops2[0].n && |d1| == ops2[0].n
    requires |d1 + d2| == BaseOf(ops1) && |d1 + d2| == BaseOf(ops2)
    ensures Splits(ops1, ops2, ops1[0 := Retain(ops1[0].n - ops2[0].n)], ops2[1..], d1, d2, lift)
  {
    assert Gained(ops1, ops2, d1, lift) == Gain(d1, [], []);
    RunRetainRest(ops1, ops1[0 := Retain(ops1[0].n - ops2[0].n)], ops2[0].n, d1, d2, lift);
    RunDeleteHead(ops2, d1, d2, lift);
    EmptyConcat(Run(ops2[1..], d2, lift));
    MergedRetainLongerDelete(ops1, ops2, d1, d2, lift);
  }

  lemma MergedRetainLongerDelete<T>(ops1: seq<Op>, ops2: seq<Op>, d1: seq<T>, d2: seq<T>, lift: char -> T)
    requires ops1 != [] && ops2 != [] && ops1[0].Retain? && ops2[0].Delete? && ops1[0].n > ops2[0].n && |d1| == ops2[0].n
    requires |d1 + d2| == BaseOf(ops1) && |d1 + d2| == BaseOf(ops2)
    ensures |d2| == BaseOf(ops1[0 := Retain(ops1[0].n - ops2[0].n)]) && |d2| == BaseOf(ops2[1..])
    ensures Merged(ops1, ops2, d1 + d2, lift) == [] + Merged(ops1[0 := Retain(ops1[0].n - ops2[0].n)], ops2[1..], d2, lift)
  {
    assert (d1 + d2)[..|d1|] == d1 && (d1 + d2)[|d1|..] == d2;
  }

  /** A delete of the first list against a retain of the second: the overlap is deleted in a'; the second head is longer and its rest stays. */
  lemma DeleteShorterRetainSplits<T>(ops1: seq<Op>, ops2: seq<Op>, d1: seq<T>, d2: seq<T>, lift: char -> T)
    requires ops1 != [] && ops2 != [] && ops1[0].Delete? && ops2[0].Retain? && ops1[0].n < ops2[0].n && |d1| == ops1[0].n
    requires |d1 + d2| == BaseOf(ops1) && |d1 + d2| == BaseOf(ops2)
    ensures Splits(ops1, ops2, ops1[1..], ops2[0 := Retain(ops2[0].n - ops1[0].n)], d1, d2, lift)
  {
    assert Gained(ops1, ops2, d1, lift) == Gain([], d1, []);
    RunDeleteHead(ops1, d1, d2, lift);
    RunRetainRest(ops2, ops2[0 := Retain(ops2[0].n - ops1[0].n)], ops1[0].n, d1, d2, lift);
    EmptyConcat(Run(ops1[1..], d2, lift));
    MergedDeleteShorterRetain(ops1, ops2, d1, d2, lift);
  }

  lemma MergedDeleteShorterRetain<T>(ops1: seq<Op>, ops2: seq<Op>, d1: seq<T>, d2: seq<T>, lift: char -> T)
    requires ops1 != [] && ops2 != [] && ops1[0].Delete? && ops2[0].Retain? && ops1[0].n < ops2[0].n && |d1| == ops1[0].n
    requires |d1 + d2| == BaseOf(ops1) && |d1 + d2| == BaseOf(ops2)
    ensures |d2| == BaseOf(ops1[1..]) && |d2| == BaseOf(ops2[0 := Retain(ops2[0].n - ops1[0].n)])
    ensures Merged(ops1, ops2, d1 + d2, lift) == [] + Merged(ops1[1..], ops2[0 := Retain(ops2[0].n - ops1[0].n)], d2, lift)
  {
    assert (d1 + d2)[..|d1|] == d1 && (d1 + d2)[|d1|..] == d2;
  }

  /** A delete of the first list against a retain of the second: the overlap is deleted in a'; both heads are used up. */
  lemma DeleteEqualRetainSplits<T>(ops1: seq<Op>, ops2: seq<Op>, d1: seq<T>, d2: seq<T>, lift: char -> T)
    requires ops1 != [] && ops2 != [] && ops1[0].Delete? && ops2[0].Retain? && ops1[0].n == ops2[0].n && |d1| == ops1[0].n
    requires |d1 + d2| == BaseOf(ops1) && |d1 + d2| == BaseOf(ops2)
    ensures Splits(ops1, ops2, ops1[1..], ops2[1..], d1, d2, lift)
  {
    assert Gained(ops1, ops2, d1, lift) == Gain([], d1, []);
    RunDeleteHead(ops1, d1, d2, lift);
    RunRetainHead(ops2, d1, d2, lift);
    EmptyConcat(Run(ops1[1..], d2, lift));
    MergedDeleteEqualRetain(ops1, ops2, d1, d2, lift);
  }

  lemma MergedDeleteEqualRetain<T>(ops1: seq<Op>, ops2: seq<Op>, d1: seq<T>, d2: seq<T>, lift: char -> T)
    requires ops1 != [] && ops2 != [] && ops1[0].Delete? && ops2[0].Retain? && ops1[0].n == ops2[0].n && |d1| == ops1[0].n
    requires |d1 + d2| == BaseOf(ops1) && |d1 + d2| == BaseOf(ops2)
    ensures |d2| == BaseOf(ops1[1..]) && |d2| == BaseOf(ops2[1..])
    ensures Merged(ops1, ops2, d1 + d2, lift) == [] + Merged(ops1[1..], ops2[1..], d2, lift)
  {
    assert (d1 + d2)[..|d1|] == d1 && (d1 + d2)[|d1|..] == d2;
  }

  /** A delete of the first list against a retain of the second: the overlap is deleted in a'; the first head is longer and its rest stays. */
  lemma DeleteLongerRetainSplits<T>(ops1: seq<Op>, ops2: seq<Op>, d1: seq<T>, d2: seq<T>, lift: char -> T)
    requires ops1 != [] && ops2 != [] && ops1[0].Delete? && ops2[0].Retain? && ops1[0].n > ops2[0].n && |d1| == ops2[0].n
    requires |d1 + d2| == BaseOf(ops1) && |d1 + d2| == BaseOf(ops2)
    ensures Splits(ops1, ops2, ops1[0 := Delete(ops1[0].n - ops2[0].n)], ops2[1..], d1, d2, lift)
  {
    assert Gained(ops1, ops2, d1, lift) == Gain([], d1, []);
    RunDeleteRest(ops1, ops1[0 := Delete(ops1[0].n - ops2[0].n)], ops2[0].n, d1, d2, lift);
    RunRetainHead(ops2, d1, d2, lift);
    EmptyConcat(Run(ops1[0 := Delete(ops1[0].n - ops2[0].n)], d2, lift));
    MergedDeleteLongerRetain(ops1, ops2, d1, d2, lift);
  }

  lemma MergedDeleteLongerRetain<T>(ops1: seq<Op>, ops2: seq<Op>, d1: seq<T>, d2: seq<T>, lift: char -> T)
    requires ops1 != [] && ops2 != [] && ops1[0].Delete? && ops2[0].Retain? && ops1[0].n > ops2[0].n && |d1| == ops2[0].n
    requires |d1 + d2| == BaseOf(ops1) && |d1 + d2| == BaseOf(ops2)
    ensures |d2| == BaseOf(ops1[0 := Delete(ops1[0].n - ops2[0].n)]) && |d2| == BaseOf(ops2[1..])
    ensures Merged(ops1, ops2, d1 + d2, lift) == [] + Merged(ops1[0 := Delete(ops1[0].n - ops2[0].n)], ops2[1..], d2, lift)
  {
    assert (d1 + d2)[..|d1|] == d1 && (d1 + d2)[|d1|..] == d2;
  }

  /** Two deletes: the overlap is gone from both sides; the second head is longer and its rest stays. */
  lemma DeleteShorterDeleteSplits<T>(ops1: seq<Op>, ops2: seq<Op>, d1: seq<T>, d2: seq<T>, lift: char -> T)
    requires ops1 != [] && ops2 != [] && ops1[0].Delete? && ops2[0].Delete? && ops1[0].n < ops2[0].n && |d1| == ops1[0].n
    requires |d1 + d2| == BaseOf(ops1) && |d1 + d2| == BaseOf(ops2)
    ensures Splits(ops1, ops2, ops1[1..], ops2[0 := Delete(ops2[0].n - ops1[0].n)], d1, d2, lift)
  {
    assert Gained(ops1, ops2, d1, lift) == Gain([], [], []);
    RunDeleteHead(ops1, d1, d2, lift);
    RunDeleteRest(ops2, ops2[0 := Delete(ops2[0].n - ops1[0].n)], ops1[0].n, d1, d2, lift);
    EmptyConcat(Run(ops1[1..], d2, lift));
    EmptyConcat(Run(ops2[0 := Delete(ops2[0].n - ops1[0].n)], d2, lift));
    MergedDeleteShorterDelete(ops1, ops2, d1, d2, lift);
  }

  lemma MergedDeleteShorterDelete<T>(ops1: seq<Op>, ops2: seq<Op>, d1: seq<T>, d2: seq<T>, lift: char -> T)
    requires ops1 != [] && ops2 != [] && ops1[0].Delete? && ops2[0].Delete? && ops1[0].n < ops2[0].n && |d1| == ops1[0].n
    requires |d1 + d2| == BaseOf(ops1) && |d1 + d2| == BaseOf(ops2)
    ensures |d2| == BaseOf(ops1[1..]) && |d2| == BaseOf(ops2[0 := Delete(ops2[0].n - ops1[0].n)])
    ensures Merged(ops1, ops2, d1 + d2, lift) == [] + Merged(ops1[1..], ops2[0 := Delete(ops2[0].n - ops1[0].n)], d2, lift)
  {
    assert (d1 + d2)[..|d1|] == d1 && (d1 + d2)[|d1|..] == d2;
  }

  /** Two deletes: the overlap is gone from both sides; both heads are used up. */
  lemma DeleteEqualDeleteSplits<T>(ops1: seq<Op>, ops2: seq<Op>, d1: seq<T>, d2: seq<T>, lift: char -> T)
    requires ops1 != [] && ops2 != [] && ops1[0].Delete? && ops2[0].Delete? && ops1[0].n == ops2[0].n && |d1| == ops1[0].n
    requires |d1 + d2| == BaseOf(ops1) && |d1 + d2| == BaseOf(ops2)
    ensures Splits(ops1, ops2, ops1[1..], ops2[1..], d1, d2, lift)
  {
    assert Gained(ops1, ops2, d1, lift) == Gain([], [], []);
    RunDeleteHead(ops1, d1, d2, lift);
    RunDeleteHead(ops2, d1, d2, lift);
    EmptyConcat(Run(ops1[1..], d2, lift));
    EmptyConcat(Run(ops2[1..], d2, lift));
    MergedDeleteEqualDelete(ops1, ops2, d1, d2, lift);
  }

  lemma MergedDeleteEqualDelete<T>(ops1: seq<Op>, ops2: seq<Op>, d1: seq<T>, d2: seq<T>, lift: char -> T)
    requires ops1 != [] && ops2 != [] && ops1[0].Delete? && ops2[0].Delete? && ops1[0].n == ops2[0].n && |d1| == ops1[0].n
    requires |d1 + d2| == BaseOf(ops1) && |d1 + d2| == BaseOf(ops2)
    ensures |d2| == BaseOf(ops1[1..]) && |d2| == BaseOf(ops2[1..])
    ensures Merged(ops1, ops2, d1 + d2, lift) == [] + Merged(ops1[1..], ops2[1..], d2, lift)
  {
    assert (d1 + d2)[..|d1|] == d1 && (d1 + d2)[|d1|..] == d2;
  }

  /** Two deletes: the overlap is gone from both sides; the first head is longer and its rest stays. */
  lemma DeleteLongerDeleteSplits<T>(ops1: seq<Op>, ops2: seq<Op>, d1: seq<T>, d2: seq<T>, lift: char -> T)
    requires ops1 != [] && ops2 != [] && ops1[0].Delete? && ops2[0].Delete? && ops1[0].n > ops2[0].n && |d1| == ops2[0].n
    requires |d1 + d2| == BaseOf(ops1) && |d1 + d2| == BaseOf(ops2)
    ensures Splits(ops1, ops2, ops1[0 := Delete(ops1[0].n - ops2[0].n)], ops2[1..], d1, d2, lift)
  {
    assert Gained(ops1, ops2, d1, lift) == Gain([], [], []);
    RunDeleteRest(ops1, ops1[0 := Delete(ops1[0].n - ops2[0].n)], ops2[0].n, d1, d2, lift);
    RunDeleteHead(ops2, d1, d2, lift);
    EmptyConcat(Run(ops1[0 := Delete(ops1[0].n - ops2[0].n)], d2, lift));
    EmptyConcat(Run(ops2[1..], d2, lift));
    MergedDeleteLongerDelete(ops1, ops2, d1, d2, lift);
  }

  lemma MergedDeleteLongerDelete<T>(ops1: seq<Op>, ops2: seq<Op>, d1: seq<T>, d2: seq<T>, lift: char -> T)
    requires ops1 != [] && ops2 != [] && ops1[0].Delete? && ops2[0].Delete? && ops1[0].n > ops2[0].n && |d1| == ops2[0].n
    requires |d1 + d2| == BaseOf(ops1) && |d1 + d2| == BaseOf(ops2)
    ensures |d2| == BaseOf(ops1[0 := Delete(ops1[0].n - ops2[0].n)]) && |d2| == BaseOf(ops2[1..])
    ensures Merged(ops1, ops2, d1 + d2, lift) == [] + Merged(ops1[0 := Delete(ops1[0].n - ops2[0].n)], ops2[1..], d2, lift)
  {
    assert (d1 + d2)[..|d1|] == d1 && (d1 + d2)[|d1|..] == d2;
  }

  /** An insert of the first list: its text is written by both sides. */
  lemma InsertFirstSplits<T>(ops1: seq<Op>, ops2: seq<Op>, d1: seq<T>, d2: seq<T>, lift: char -> T)
    requires ops1 != [] && ops1[0].Insert? && d1 == []
    requires |d1 + d2| == BaseOf(ops1) && |d1 + d2| == BaseOf(ops2)
    ensures Splits(ops1, ops2, ops1[1..], ops2, d1, d2, lift)
  {
    assert Gained(ops1, ops2, d1, lift) == Gain(Lift(ops1[0].s, lift), [], Lift(ops1[0].s, lift));
    EmptyConcat(d2);
    RunInsertHead(ops1, d2, lift);
    EmptyConcat(Run(ops2, d2, lift));
  }

  /** An insert of the second list, when the first has none at its head: its text is written by both sides. */
  lemma InsertSecondSplits<T>(ops1: seq<Op>, ops2: seq<Op>, d1: seq<T>, d2: seq<T>, lift: char -> T)
    requires !(ops1 != [] && ops1[0].Insert?) && ops2 != [] && ops2[0].Insert? && d1 == []
    requires |d1 + d2| == BaseOf(ops1) && |d1 + d2| == BaseOf(ops2)
    ensures Splits(ops1, ops2, ops1, ops2[1..], d1, d2, lift)
  {
    assert Gained(ops1, ops2, d1, lift) == Gain([], Lift(ops2[0].s, lift), Lift(ops2[0].s, lift));
    EmptyConcat(d2);
    RunInsertHead(ops2, d2, lift);
    EmptyConcat(Run(ops1, d2, lift));
  }

  /** A turn on a retain of the first list and a retain of the second. */
  lemma RetainRetainSplits<T>(ops1: seq<Op>, ops2: seq<Op>, a: Sequence, b: Sequence, d1: seq<T>, d2: seq<T>, lift: char -> T)
    requires ops1 != [] && ops2 != [] && ops1[0].Retain? && ops2[0].Retain?
    requires |d1| == Reads(ops1, ops2) && |d1 + d2| == BaseOf(ops1) && |d1 + d2| == BaseOf(ops2)
    ensures var t := TransformTurn(ops1, ops2, a, b);
      t.Next? && Splits(ops1, ops2, t.ops1, t.ops2, d1, d2, lift)
  {
    if ops1[0].n < ops2[0].n {
      RetainShorterRetainSplits(ops1, ops2, d1, d2, lift);
    } else if ops1[0].n == ops2[0].n {
      RetainEqualRetainSplits(ops1, ops2, d1, d2, lift);
    } else {
      RetainLongerRetainSplits(ops1, ops2, d1, d2, lift);
    }
  }

  /** A turn on a retain of the first list and a delete of the second. */
  lemma RetainDeleteSplits<T>(ops1: seq<Op>, ops2: seq<Op>, a: Sequence, b: Sequence, d1: seq<T>, d2: seq<T>, lift: char -> T)
    requires ops1 != [] && ops2 != [] && ops1[0].Retain? && ops2[0].Delete?
    requires |d1| == Reads(ops1, ops2) && |d1 + d2| == BaseOf(ops1) && |d1 + d2| == BaseOf(ops2)
    ensures var t := TransformTurn(ops1, ops2, a, b);
      t.Next? && Splits(ops1, ops2, t.ops1, t.ops2, d1, d2, lift)
  {
    if ops1[0].n < ops2[0].n {
      RetainShorterDeleteSplits(ops1, ops2, d1, d2, lift);
    } else if ops1[0].n == ops2[0].n {
      RetainEqualDeleteSplits(ops1, ops2, d1, d2, lift);
    } else {
      RetainLongerDeleteSplits(ops1, ops2, d1, d2, lift);
    }
  }

  /** A turn on a delete of the first list and a retain of the second. */
  lemma DeleteRetainSplits<T>(ops1: seq<Op>, ops2: seq<Op>, a: Sequence, b: Sequence, d1: seq<T>, d2: seq<T>, lift: char -> T)
    requires ops1 != [] && ops2 != [] && ops1[0].Delete? && ops2[0].Retain?
    requires |d1| == Reads(ops1, ops2) && |d1 + d2| == BaseOf(ops1) && |d1 + d2| == BaseOf(ops2)
    ensures var t := TransformTurn(ops1, ops2, a, b);
      t.Next? && Splits(ops1, ops2, t.ops1, t.ops2, d1, d2, lift)
  {
    if ops1[0].n < ops2[0].n {
      DeleteShorterRetainSplits(ops1, ops2, d1, d2, lift);
    } else if ops1[0].n == ops2[0].n {
      DeleteEqualRetainSplits(ops1, ops2, d1, d2, lift);
    } else {
      DeleteLongerRetainSplits(ops1, ops2, d1, d2, lift);
    }
  }

  /** A turn on a delete of the first list and a delete of the second. */
  lemma DeleteDeleteSplits<T>(ops1: seq<Op>, ops2: seq<Op>, a: Sequence, b: Sequence, d1: seq<T>, d2: seq<T>, lift: char -> T)
    requires ops1 != [] && ops2 != [] && ops1[0].Delete? && ops2[0].Delete?
    requires |d1| == Reads(ops1, ops2) && |d1 + d2| == BaseOf(ops1) && |d1 + d2| == BaseOf(ops2)
    ensures var t := TransformTurn(ops1, ops2, a, b);
      t.Next? && Splits(ops1, ops2, t.ops1, t.ops2, d1, d2, lift)
  {
    if ops1[0].n < ops2[0].n {
      DeleteShorterDeleteSplits(ops1, ops2, d1, d2, lift);
    } else if ops1[0].n == ops2[0].n {
      DeleteEqualDeleteSplits(ops1, ops2, d1, d2, lift);
    } else {
      DeleteLongerDeleteSplits(ops1, ops2, d1, d2, lift);
    }
  }

  /** Every turn that continues splits the lists' writing and the merged document alike. */
  lemma TurnSplits<T>(ops1: seq<Op>, ops2: seq<Op>, a: Sequence, b: Sequence, d1: seq<T>, d2: seq<T>, lift: char -> T)
    requires TransformTurn(ops1, ops2, a, b).Next?
    requires |d1| == Reads(ops1, ops2) && |d1 + d2| == BaseOf(ops1) && |d1 + d2| == BaseOf(ops2)
    ensures var t := TransformTurn(ops1, ops2, a, b);
      Splits(ops1, ops2, t.ops1, t.ops2, d1, d2, lift)
  {
    if ops1 != [] && ops1[0].Insert? {
      InsertFirstSplits(ops1, ops2, d1, d2, lift);
    } else if ops2 != [] && ops2[0].Insert? {
      InsertSecondSplits(ops1, ops2, d1, d2, lift);
    } else if ops1[0].Retain? && ops2[0].Retain? {
      RetainRetainSplits(ops1, ops2, a, b, d1, d2, lift);
    } else if ops1[0].Retain? {
      RetainDeleteSplits(ops1, ops2, a, b, d1, d2, lift);
    } else if ops2[0].Retain? {
      DeleteRetainSplits(ops1, ops2, a, b, d1, d2, lift);
    } else {
      DeleteDeleteSplits(ops1, ops2, a, b, d1, d2, lift);
    }
  }

  /** An insert of the first list: `a'` inserts it, `b'` retains it. */
  lemma GrowsInsertFirst<T>(a: Sequence, b: Sequence, s: seq<char>, ua: seq<T>, ub: seq<T>, lift: char -> T)
    requires |ua| == BaseOf(a.ops) && |ub| == BaseOf(b.ops)
    ensures Grows(a, b, AddInsert(a, s), AddRetain(b, |s|), ua, ub, Gain(Lift(s, lift), [], Lift(s, lift)), lift)
  {
    EmptyConcat(ua);
    InsertRun(a, s, ua, lift);
    RetainRun(b, |s|, ub, Lift(s, lift), lift);
  }

  /** An insert of the second list: `a'` retains it, `b'` inserts it. */
  lemma GrowsInsertSecond<T>(a: Sequence, b: Sequence, s: seq<char>, ua: seq<T>, ub: seq<T>, lift: char -> T)
    requires |ua| == BaseOf(a.ops) && |ub| == BaseOf(b.ops)
    ensures Grows(a, b, AddRetain(a, |s|), AddInsert(b, s), ua, ub, Gain([], Lift(s, lift), Lift(s, lift)), lift)
  {
    EmptyConcat(ub);
    RetainRun(a, |s|, ua, Lift(s, lift), lift);
    InsertRun(b, s, ub, lift);
  }

  /** Text both lists keep: both outputs retain it. */
  lemma GrowsRetain<T>(a: Sequence, b: Sequence, n: nat, ua: seq<T>, ub: seq<T>, w: seq<T>, lift: char -> T)
    requires |ua| == BaseOf(a.ops) && |ub| == BaseOf(b.ops) && |w| == n
    ensures Grows(a, b, AddRetain(a, n), AddRetain(b, n), ua, ub, Gain(w, w, w), lift)
  {
    RetainRun(a, n, ua, w, lift);
    RetainRun(b, n, ub, w, lift);
  }

  /** Text the first list keeps and the second deletes: `b'` deletes it. */
  lemma GrowsDeleteSecond<T>(a: Sequence, b: Sequence, n: nat, ua: seq<T>, ub: seq<T>, w: seq<T>, lift: char -> T)
    requires |ua| == BaseOf(a.ops) && |ub| == BaseOf(b.ops) && |w| == n
    ensures Grows(a, b, a, AddDelete(b, n), ua, ub, Gain(w, [], []), lift)
  {
    EmptyConcat(ua);
    EmptyConcat(Run(a.ops, ua, lift));
    DeleteRun(b, n, ub, w, lift);
    EmptyConcat(Run(b.ops, ub, lift));
  }

  /** Text the first list deletes and the second keeps: `a'` deletes it. */
  lemma GrowsDeleteFirst<T>(a: Sequence, b: Sequence, n: nat, ua: seq<T>, ub: seq<T>, w: seq<T>, lift: char -> T)
    requires |ua| == BaseOf(a.ops) && |ub| == BaseOf(b.ops) && |w| == n
    ensures Grows(a, b, AddDelete(a, n), b, ua, ub, Gain([], w, []), lift)
  {
    DeleteRun(a, n, ua, w, lift);
    EmptyConcat(Run(a.ops, ua, lift));
    EmptyConcat(ub);
    EmptyConcat(Run(b.ops, ub, lift));
  }

  /** Text both lists delete: neither output changes. */
  lemma GrowsNone<T>(a: Sequence, b: Sequence, ua: seq<T>, ub: seq<T>, lift: char -> T)
    requires |ua| == BaseOf(a.ops) && |ub| == BaseOf(b.ops)
    ensures Grows(a, b, a, b, ua, ub, Gain([], [], []), lift)
  {
    EmptyConcat(ua);
    EmptyConcat(Run(a.ops, ua, lift));
    EmptyConcat(ub);
    EmptyConcat(Run(b.ops, ub, lift));
  }

  /** Every turn that continues grows the outputs by the turn's gain. */
  lemma TurnGrows<T>(ops1: seq<Op>, ops2: seq<Op>, a: Sequence, b: Sequence, ua: seq<T>, ub: seq<T>, d1: seq<T>, lift: char -> T)
    requires TransformTurn(ops1, ops2, a, b).Next?
    requires |d1| == Reads(ops1, ops2) && |ua| == BaseOf(a.ops) && |ub| == BaseOf(b.ops)
    ensures var t := TransformTurn(ops1, ops2, a, b);
      Grows(a, b, t.a, t.b, ua, ub, Gained(ops1, ops2, d1, lift), lift)
  {
    if ops1 != [] && ops1[0].Insert? {
      GrowsInsertFirst(a, b, ops1[0].s, ua, ub, lift);
    } else if ops2 != [] && ops2[0].Insert? {
      GrowsInsertSecond(a, b, ops2[0].s, ua, ub, lift);
    } else if ops1[0].Retain? && ops2[0].Retain? {
      GrowsRetain(a, b, Reads(ops1, ops2), ua, ub, d1, lift);
    } else if ops1[0].Retain? {
      GrowsDeleteSecond(a, b, Reads(ops1, ops2), ua, ub, d1, lift);
    } else if ops2[0].Retain? {
      GrowsDeleteFirst(a, b, Reads(ops1, ops2), ua, ub, d1, lift);
    } else {
      GrowsNone(a, b, ua, ub, lift);
    }
  }

  /**
    One side of a turn, followed by the rest of the loop: the final output,
    run on what is already read and what the list writes from d, writes the
    output so far followed by the gain and what the rest adds.
   */
  lemma SideStep<T>(fin: seq<Op>, a: Sequence, a2: Sequence, ops: seq<Op>, o: seq<Op>,
                    ua: seq<T>, e: seq<T>, d: seq<T>, d2: seq<T>, both: seq<T>, rest: seq<T>, lift: char -> T)
    requires |ua| == BaseOf(a.ops) && |ua + e| == BaseOf(a2.ops) && |d| == BaseOf(ops) && |d2| == BaseOf(o)
    requires Run(ops, d, lift) == e + Run(o, d2, lift)
    requires |(ua + e) + Run(o, d2, lift)| == BaseOf(fin)
    requires Run(a2.ops, ua + e, lift) == Run(a.ops, ua, lift) + both
    requires Run(fin, (ua + e) + Run(o, d2, lift), lift) == Run(a2.ops, ua + e, lift) + rest
    ensures |ua + Run(ops, d, lift)| == BaseOf(fin)
    ensures Run(fin, ua + Run(ops, d, lift), lift) == Run(a.ops, ua, lift) + (both + rest)
  {
    Assoc(ua, e, Run(o, d2, lift));
    Assoc(Run(a.ops, ua, lift), both, rest);
  }

  /**
    What the loop returns reaches the merged document of the remaining lists
    from either side: `a'` run on what `a` has read followed by what the
    second list writes from d writes what `a` writes followed by the merged
    document, and the same for `b'` with the first list.
   */
  lemma {:induction false} TransformLoopMeaning<T>(ops1: seq<Op>, ops2: seq<Op>, a: Sequence, b: Sequence,
                                                   ua: seq<T>, ub: seq<T>, d: seq<T>, lift: char -> T)
    requires TransformLoop(ops1, ops2, a, b).Ok? && Fits(ops1, ops2, a, b, |ua|, |ub|, |d|)
    ensures var r := TransformLoop(ops1, ops2, a, b).value;
      && |ua + Run(ops2, d, lift)| == BaseOf(r.0.ops) && |ub + Run(ops1, d, lift)| == BaseOf(r.1.ops)
      && Run(r.0.ops, ua + Run(ops2, d, lift), lift) == Run(a.ops, ua, lift) + Merged(ops1, ops2, d, lift)
      && Run(r.1.ops, ub + Run(ops1, d, lift), lift) == Run(b.ops, ub, lift) + Merged(ops1, ops2, d, lift)
    decreases |ops1| + |ops2|
  {
    TransformLoopShape(ops1, ops2, a, b);
    var t := TransformTurn(ops1, ops2, a, b);
    if t.Done? {
      EmptyConcat(ua);
      EmptyConcat(ub);
      EmptyConcat(Run(a.ops, ua, lift));
      EmptyConcat(Run(b.ops, ub, lift));
    } else {
      var c := Reads(ops1, ops2);
      SplitAt(d, [], c);
      var d1, d2 := d[..c], d[c..];
      TurnSplits(ops1, ops2, a, b, d1, d2, lift);
      TurnGrows(ops1, ops2, a, b, ua, ub, d1, lift);
      TurnLengths(ops1, ops2, a, b);
      var g := Gained(ops1, ops2, d1, lift);
      TransformLoopMeaning(t.ops1, t.ops2, t.a, t.b, ua + g.second, ub + g.first, d2, lift);
      var r := TransformLoop(ops1, ops2, a, b).value;
      var rest := Merged(t.ops1, t.ops2, d2, lift);
      SideStep(r.0.ops, a, t.a, ops2, t.ops2, ua, g.second, d, d2, g.both, rest, lift);
      SideStep(r.1.ops, b, t.b, ops1, t.ops1, ub, g.first, d, d2, g.both, rest, lift);
    }
  }

  // ---------------------------------------------------------------------
  // Transform as a whole
  // ---------------------------------------------------------------------

  /**
    On sequences whose counters agree with their operations and which hold no
    zero-length operation, `Transform` fails exactly when the two base
    lengths differ.
   */
  lemma TransformSucceeds(a: Sequence, b: Sequence)
    requires Valid(a) && Valid(b) && NonEmptyOps(a.ops) && NonEmptyOps(b.ops)
    ensures Transform(a, b).Ok? <==> a.baseLen == b.baseLen
  {
    if a.baseLen == b.baseLen {
      TransformLoopSucceeds(a.ops, b.ops, NewSequence(), NewSequence());
    }
  }

  /**
    Convergence: on any document of the right length, `b'` after `a` and
    `a'` after `b` both write the merged document.
   */
  lemma TransformMeaning<T>(a: Sequence, b: Sequence, d: seq<T>, lift: char -> T)
    requires Transform(a, b).Ok? && |d| == BaseOf(a.ops)
    ensures var r := Transform(a, b).value;
      && |d| == BaseOf(b.ops)
      && |Run(a.ops, d, lift)| == BaseOf(r.1.ops) && |Run(b.ops, d, lift)| == BaseOf(r.0.ops)
      && Run(r.1.ops, Run(a.ops, d, lift), lift) == Merged(a.ops, b.ops, d, lift)
      && Run(r.0.ops, Run(b.ops, d, lift), lift) == Merged(a.ops, b.ops, d, lift)
  {
    EmptyConcat(Run(a.ops, d, lift));
    EmptyConcat(Run(b.ops, d, lift));
    EmptyConcat(Merged(a.ops, b.ops, d, lift));
    TransformLoopMeaning(a.ops, b.ops, NewSequence(), NewSequence(), [], [], d, lift);
  }

  /**
    Applying `a` then `b'` gives the same text as applying `b` then `a'`, and
    both fail together when the text does not fit.
   */
  lemma TransformApply(a: Sequence, b: Sequence, s: seq<char>)
    requires Valid(a) && Valid(b) && Transform(a, b).Ok?
    ensures var r := Transform(a, b).value;
      && (Apply(a, s).Ok? <==> Apply(b, s).Ok?)
      && (Apply(a, s).Ok? ==> Apply(r.1, Apply(a, s).value) == Apply(r.0, Apply(b, s).value))
      && (Apply(a, s).Ok? ==> Apply(r.1, Apply(a, s).value).Ok?)
  {
    if |s| == a.baseLen {
      TransformMeaning(a, b, s, Id);
    }
  }

  /**
    When both lists start with an insert, and the first list's insert is not
    followed by another one, the merged document starts with the first
    list's text and then the second's.
   */
  lemma MergedInsertsFirst<T>(ops1: seq<Op>, ops2: seq<Op>, d: seq<T>, lift: char -> T)
    requires ops1 != [] && ops2 != [] && ops1[0].Insert? && ops2[0].Insert?
    requires |ops1| == 1 || !ops1[1].Insert?
    requires |d| == BaseOf(ops1) && |d| == BaseOf(ops2)
    ensures |d| == BaseOf(ops1[1..]) && |d| == BaseOf(ops2[1..])
    ensures Merged(ops1, ops2, d, lift) == Lift(ops1[0].s, lift) + (Lift(ops2[0].s, lift) + Merged(ops1[1..], ops2[1..], d, lift))
  {
    assert Merged(ops1, ops2, d, lift) == Lift(ops1[0].s, lift) + Merged(ops1[1..], ops2, d, lift);
    assert Merged(ops1[1..], ops2, d, lift) == Lift(ops2[0].s, lift) + Merged(ops1[1..], ops2[1..], d, lift);
  }

  /** The retained prefix shared by two lists before they insert: nothing at the start of the document, `Retain(k)` after k characters. */
  function RetainLead(k: nat): (r: seq<Op>)
    ensures BaseOf(r) == k && (r == [] || r[0] == Retain(k))
  {
    if k == 0 then [] else LengthsSingle(Retain(k)); [Retain(k)]
  }

  /** A retain of k shared by both lists keeps the first k characters of the document. */
  lemma MergedSharedRetain<T>(k: nat, pt: seq<Op>, qt: seq<Op>, d: seq<T>, lift: char -> T)
    requires |d| == BaseOf(RetainLead(k) + pt) && |d| == BaseOf(RetainLead(k) + qt)
    ensures k <= |d| && |d| - k == BaseOf(pt) && |d| - k == BaseOf(qt)
    ensures Merged(RetainLead(k) + pt, RetainLead(k) + qt, d, lift) == d[..k] + Merged(pt, qt, d[k..], lift)
  {
    LengthsConcat(RetainLead(k), pt);
    LengthsConcat(RetainLead(k), qt);
    var p, q := RetainLead(k) + pt, RetainLead(k) + qt;
    if k == 0 {
      assert p == pt && q == qt && d[k..] == d && d[..k] == [];
    } else {
      assert p[1..] == pt && q[1..] == qt;
      assert d[..k] + d[k..] == d;
      MergedRetainEqualRetain(p, q, d[..k], d[k..], lift);
    }
  }

  /**
    After a shared retained prefix of k characters, where both lists insert
    and the first does not insert again, the merged document keeps the k
    characters, then the first list's text, then the second's.
   */
  lemma MergedTieBreak<T>(k: nat, x: seq<char>, y: seq<char>, ra: seq<Op>, rb: seq<Op>, d: seq<T>, lift: char -> T)
    requires ra == [] || !ra[0].Insert?
    requires |d| == BaseOf(RetainLead(k) + ([Insert(x)] + ra)) && |d| == BaseOf(RetainLead(k) + ([Insert(y)] + rb))
    ensures k <= |d| && |d| - k == BaseOf(ra) && |d| - k == BaseOf(rb)
    ensures Merged(RetainLead(k) + ([Insert(x)] + ra), RetainLead(k) + ([Insert(y)] + rb), d, lift)
         == d[..k] + (Lift(x, lift) + (Lift(y, lift) + Merged(ra, rb, d[k..], lift)))
  {
    var pt, qt := [Insert(x)] + ra, [Insert(y)] + rb;
    MergedSharedRetain(k, pt, qt, d, lift);
    LengthsCons(Insert(x), ra);
    LengthsCons(Insert(y), rb);
    assert pt[1..] == ra && qt[1..] == rb;
    MergedInsertsFirst(pt, qt, d[k..], lift);
  }

  lemma PrefixOfNested<T>(p: seq<T>, x: seq<T>, y: seq<T>, tail: seq<T>, m: seq<T>)
    requires m == p + (x + (y + tail))
    ensures p + x + y <= m
  {
    var u := p + x + y;
    assert m == u + tail;
    assert m[..|u|] == u;
  }

  /** `MergedTieBreak` on text, with the prefix stated as such. */
  lemma MergedTextTieBreak(p: seq<Op>, q: seq<Op>, s: seq<char>, k: nat, x: seq<char>, y: seq<char>, ra: seq<Op>, rb: seq<Op>)
    requires p == RetainLead(k) + [Insert(x)] + ra && q == RetainLead(k) + [Insert(y)] + rb
    requires ra == [] || !ra[0].Insert?
    requires |s| == BaseOf(p) && |s| == BaseOf(q)
    ensures k <= |s| && s[..k] + x + y <= Merged(p, q, s, Id)
  {
    assert p == RetainLead(k) + ([Insert(x)] + ra) && q == RetainLead(k) + ([Insert(y)] + rb);
    MergedTieBreak(k, x, y, ra, rb, s, Id);
    LiftId(x);
    LiftId(y);
    PrefixOfNested(s[..k], x, y, Merged(ra, rb, s[k..], Id), Merged(p, q, s, Id));
  }

  /**
    The tie-break of the source: when `a` and `b` both keep the first k
    characters and then insert, the converged text holds those k
    characters, then `a`'s text, then `b`'s, on both paths. (When `a` holds
    two inserts in a row, as no builder makes, both of its texts come
    first.)
   */
  lemma TransformTieBreak(a: Sequence, b: Sequence, s: seq<char>, k: nat, x: seq<char>, y: seq<char>, ra: seq<Op>, rb: seq<Op>)
    requires Valid(a) && Valid(b) && Transform(a, b).Ok? && |s| == a.baseLen
    requires a.ops == RetainLead(k) + [Insert(x)] + ra && b.ops == RetainLead(k) + [Insert(y)] + rb
    requires ra == [] || !ra[0].Insert?
    ensures var r := Transform(a, b).value;
      && k <= |s| && Apply(a, s).Ok? && Apply(b, s).Ok?
      && Apply(r.1, Apply(a, s).value).Ok? && Apply(r.0, Apply(b, s).value).Ok?
      && s[..k] + x + y <= Apply(r.1, Apply(a, s).value).value
      && s[..k] + x + y <= Apply(r.0, Apply(b, s).value).value
  {
    TransformMeaning(a, b, s, Id);
    MergedTextTieBreak(a.ops, b.ops, s, k, x, y, ra, rb);
  }
}

/**
  What transform and compose promise together (sequence_test.go:209-242):
  `a` composed with `b'` and `b` composed with `a'` both exist and do the
  same to every text.
 */
module TransformLaws {
  import opened Operations
  import opened Sequences
  import opened Results
  import opened Documents
  import C = Composition
  import T = Transformation

  /**
    For sequences the builders could have made on documents of one length,
    the transform succeeds, both composites exist, and they give the same
    result on any text.
   */
  lemma TransformComposes(a: Sequence, b: Sequence, s: seq<char>)
    requires Valid(a) && Valid(b) && NonEmptyOps(a.ops) && NonEmptyOps(b.ops) && a.baseLen == b.baseLen
    ensures T.Transform(a, b).Ok?
    ensures var r := T.Transform(a, b).value;
      && C.Compose(a, r.1).Ok? && C.Compose(b, r.0).Ok?
      && Apply(C.Compose(a, r.1).value, s) == Apply(C.Compose(b, r.0).value, s)
  {
    T.TransformSucceeds(a, b);
    var r := T.Transform(a, b).value;
    C.ComposeSucceeds(a, r.1);
    C.ComposeSucceeds(b, r.0);
    C.ComposeApply(a, r.1, s);
    C.ComposeApply(b, r.0, s);
    T.TransformApply(a, b, s);
  }
}
