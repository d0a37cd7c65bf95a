/**
  `Invert` (sequence.go:319-338): the sequence that undoes a sequence, given
  the document it was applied to. A retain stays a retain, an insert becomes
  a delete of as many runes, and a delete becomes an insert of the runes it
  removed, read from the original document at the current position.
 */
module Inversion {
  import opened Operations
  import opened Sequences
  import opened Results
  import opened Documents

  /**
    The source slices the original runes only at a delete
    (`chars[pos : pos+N]`, sequence.go:332), so it runs without a panic
    exactly when no delete reads past the end of the text. Retains may
    move the position past the end without harm.
   */
  predicate Reaches(ops: seq<Op>, pos: nat, len: nat)
    decreases |ops|
  {
    ops == [] ||
    match ops[0]
    case Retain(n) => Reaches(ops[1..], pos + n, len)
    case Insert(_) => Reaches(ops[1..], pos, len)
    case Delete(n) => pos + n <= len && Reaches(ops[1..], pos + n, len)
  }

  /**
    The loop of `Invert` from position pos of the original runes s, with the
    inverse built so far. The inverse grows by what the remaining operations
    write (it reads that) and by what they read (it writes that), and the
    builders keep it valid and in normal form.
   */
  function InvertFrom(ops: seq<Op>, s: seq<char>, pos: nat, inv: Sequence): (r: Sequence)
    requires Reaches(ops, pos, |s|)
    ensures BaseOf(r.ops) == BaseOf(inv.ops) + TargetOf(ops)
    ensures TargetOf(r.ops) == TargetOf(inv.ops) + BaseOf(ops)
    ensures Valid(inv) ==> Valid(r)
    ensures Normal(inv.ops) ==> Normal(r.ops)
    decreases |ops|
  {
    if ops == [] then inv
    else
      match ops[0]
      case Retain(n) => InvertFrom(ops[1..], s, pos + n, AddRetain(inv, n))
      case Insert(t) => InvertFrom(ops[1..], s, pos, AddDelete(inv, |t|))
      case Delete(n) => InvertFrom(ops[1..], s, pos + n, AddInsert(inv, s[pos..pos + n]))
  }

  /**
    `Invert` runs the loop from the start of the text with an empty inverse:
    the inverse reads what the sequence writes and writes what it reads.
   */
  function Invert(q: Sequence, s: seq<char>): (r: Sequence)
    requires Reaches(q.ops, 0, |s|)
    ensures Valid(r) && Normal(r.ops)
    ensures BaseOf(r.ops) == TargetOf(q.ops) && TargetOf(r.ops) == BaseOf(q.ops)
    ensures Valid(q) ==> r.baseLen == q.targetLen && r.targetLen == q.baseLen
  {
    InvertFrom(q.ops, s, 0, NewSequence())
  }

  /** No delete reads past the end when the text is at least as long as what the operations read. */
  lemma {:induction false} ReachesWhenLongEnough(ops: seq<Op>, pos: nat, len: nat)
    requires pos + BaseOf(ops) <= len
    ensures Reaches(ops, pos, len)
    decreases |ops|
  {
    if ops != [] {
      ReachesWhenLongEnough(ops[1..], pos + Consumed(ops[0]), len);
    }
  }

  /**
    Each kind of operation has its counterpart: a retain stays a retain of
    the same count, an insert becomes a delete of its rune count, and a
    delete becomes an insert of the runes it removes.
   */
  lemma InvertOneOp(op: Op, s: seq<char>)
    requires Size(op) > 0 && Consumed(op) <= |s|
    ensures Reaches([op], 0, |s|)
    ensures op.Retain? ==> Invert(Sequence([op], op.n, op.n), s) == Sequence([Retain(op.n)], op.n, op.n)
    ensures op.Insert? ==> Invert(Sequence([op], 0, |op.s|), s) == Sequence([Delete(|op.s|)], |op.s|, 0)
    ensures op.Delete? ==> Invert(Sequence([op], op.n, 0), s) == Sequence([Insert(s[..op.n])], 0, op.n)
  {
    var e := NewSequence();
    LengthsSingle(op);
    ReachesWhenLongEnough([op], 0, |s|);
    assert [op][0] == op && [op][1..] == [];
    match op
    case Retain(n) =>
      InvertFromRetain([op], s, 0, e);
      assert PushRetain([], n) == [Retain(n)];
    case Insert(t) =>
      InvertFromInsert([op], s, 0, e);
      assert PushDelete([], |t|) == [Delete(|t|)];
    case Delete(n) =>
      InvertFromDelete([op], s, 0, e);
      assert s[0..n] == s[..n];
      assert PushInsert([], s[..n]) == [Insert(s[..n])];
  }

  // ---------------------------------------------------------------------
  // The inverse undoes the sequence
  // ---------------------------------------------------------------------

  /**
    The same loop read over the remaining text x rather than over the whole
    text and a position, for texts exactly as long as the operations read.
   */
  ghost function InvertRest(ops: seq<Op>, x: seq<char>, inv: Sequence): Sequence
    requires |x| == BaseOf(ops)
    decreases |ops|
  {
    if ops == [] then inv
    else
      match ops[0]
      case Retain(n) => InvertRest(ops[1..], x[n..], AddRetain(inv, n))
      case Insert(t) => InvertRest(ops[1..], x, AddDelete(inv, |t|))
      case Delete(n) => InvertRest(ops[1..], x[n..], AddInsert(inv, x[..n]))
  }

  /** One iteration of the loop on a retain. */
  lemma InvertFromRetain(ops: seq<Op>, s: seq<char>, pos: nat, inv: Sequence)
    requires ops != [] && ops[0].Retain? && Reaches(ops, pos, |s|)
    ensures Reaches(ops[1..], pos + ops[0].n, |s|)
    ensures InvertFrom(ops, s, pos, inv) == InvertFrom(ops[1..], s, pos + ops[0].n, AddRetain(inv, ops[0].n))
  {
  }

  /** One iteration of the loop on an insert. */
  lemma InvertFromInsert(ops: seq<Op>, s: seq<char>, pos: nat, inv: Sequence)
    requires ops != [] && ops[0].Insert? && Reaches(ops, pos, |s|)
    ensures Reaches(ops[1..], pos, |s|)
    ensures InvertFrom(ops, s, pos, inv) == InvertFrom(ops[1..], s, pos, AddDelete(inv, |ops[0].s|))
  {
  }

  /** One iteration of the loop on a delete. */
  lemma InvertFromDelete(ops: seq<Op>, s: seq<char>, pos: nat, inv: Sequence)
    requires ops != [] && ops[0].Delete? && Reaches(ops, pos, |s|)
    ensures pos + ops[0].n <= |s| && Reaches(ops[1..], pos + ops[0].n, |s|)
    ensures InvertFrom(ops, s, pos, inv) == InvertFrom(ops[1..], s, pos + ops[0].n, AddInsert(inv, s[pos..pos + ops[0].n]))
  {
  }

  /** The text from pos, with its first n runes and the text after them. */
  lemma SuffixParts(s: seq<char>, pos: nat, n: nat)
    requires pos + n <= |s|
    ensures s[pos..][..n] == s[pos..pos + n] && s[pos..][n..] == s[pos + n..]
  {
  }

  /** The loop from pos reads only the text from pos on. */
  lemma {:induction false} InvertFromRest(ops: seq<Op>, s: seq<char>, pos: nat, inv: Sequence)
    requires pos + BaseOf(ops) == |s|
    ensures Reaches(ops, pos, |s|)
    ensures InvertFrom(ops, s, pos, inv) == InvertRest(ops, s[pos..], inv)
    decreases |ops|, 1
  {
    ReachesWhenLongEnough(ops, pos, |s|);
    if ops == [] {
    } else if ops[0].Retain? {
      RetainFromRest(ops, s, pos, inv);
    } else if ops[0].Insert? {
      InsertFromRest(ops, s, pos, inv);
    } else {
      DeleteFromRest(ops, s, pos, inv);
    }
  }

  /** `InvertFromRest` on a retain. */
  lemma {:induction false} RetainFromRest(ops: seq<Op>, s: seq<char>, pos: nat, inv: Sequence)
    requires ops != [] && ops[0].Retain? && pos + BaseOf(ops) == |s| && Reaches(ops, pos, |s|)
    ensures InvertFrom(ops, s, pos, inv) == InvertRest(ops, s[pos..], inv)
    decreases |ops|, 0
  {
    var n := ops[0].n;
    InvertFromRetain(ops, s, pos, inv);
    SuffixParts(s, pos, n);
    InvertFromRest(ops[1..], s, pos + n, AddRetain(inv, n));
  }

  /** `InvertFromRest` on an insert. */
  lemma {:induction false} InsertFromRest(ops: seq<Op>, s: seq<char>, pos: nat, inv: Sequence)
    requires ops != [] && ops[0].Insert? && pos + BaseOf(ops) == |s| && Reaches(ops, pos, |s|)
    ensures InvertFrom(ops, s, pos, inv) == InvertRest(ops, s[pos..], inv)
    decreases |ops|, 0
  {
    InvertFromInsert(ops, s, pos, inv);
    InvertFromRest(ops[1..], s, pos, AddDelete(inv, |ops[0].s|));
  }

  /** `InvertFromRest` on a delete. */
  lemma {:induction false} DeleteFromRest(ops: seq<Op>, s: seq<char>, pos: nat, inv: Sequence)
    requires ops != [] && ops[0].Delete? && pos + BaseOf(ops) == |s| && Reaches(ops, pos, |s|)
    ensures InvertFrom(ops, s, pos, inv) == InvertRest(ops, s[pos..], inv)
    decreases |ops|, 0
  {
    var n := ops[0].n;
    InvertFromDelete(ops, s, pos, inv);
    SuffixParts(s, pos, n);
    InvertFromRest(ops[1..], s, pos + n, AddInsert(inv, s[pos..pos + n]));
  }

  /**
    A retain over the runes w of the remaining text x = w + y: the inverse
    retains the same runes, after which the rest of the loop, which returns
    r, continues.
   */
  lemma RetainUndone(ops: seq<Op>, x: seq<char>, w: seq<char>, y: seq<char>, inv: Sequence, u: seq<char>, r: Sequence)
    requires ops != [] && ops[0].Retain? && |w| == ops[0].n && x == w + y && |y| == BaseOf(ops[1..]) && |u| == BaseOf(inv.ops)
    requires |(u + w) + Run(ops[1..], y, Id)| == BaseOf(r.ops)
    requires Run(r.ops, (u + w) + Run(ops[1..], y, Id), Id) == Run(AddRetain(inv, |w|).ops, u + w, Id) + y
    ensures |x| == BaseOf(ops) && |u + Run(ops, x, Id)| == BaseOf(r.ops)
    ensures Run(r.ops, u + Run(ops, x, Id), Id) == Run(inv.ops, u, Id) + x
  {
    RunRetainHead(ops, w, y, Id);
    RetainRun(inv, ops[0].n, u, w, Id);
    Assoc(u, w, Run(ops[1..], y, Id));
    Assoc(Run(inv.ops, u, Id), w, y);
  }

  /** An insert, before the remaining text x: the inverse deletes the inserted runes. */
  lemma InsertUndone(ops: seq<Op>, x: seq<char>, inv: Sequence, u: seq<char>, r: Sequence)
    requires ops != [] && ops[0].Insert? && |x| == BaseOf(ops[1..]) && |u| == BaseOf(inv.ops)
    requires |(u + ops[0].s) + Run(ops[1..], x, Id)| == BaseOf(r.ops)
    requires Run(r.ops, (u + ops[0].s) + Run(ops[1..], x, Id), Id) == Run(AddDelete(inv, |ops[0].s|).ops, u + ops[0].s, Id) + x
    ensures |x| == BaseOf(ops) && |u + Run(ops, x, Id)| == BaseOf(r.ops)
    ensures Run(r.ops, u + Run(ops, x, Id), Id) == Run(inv.ops, u, Id) + x
  {
    var t := ops[0].s;
    RunInsertHead(ops, x, Id);
    LiftId(t);
    DeleteRun(inv, |t|, u, t, Id);
    Assoc(u, t, Run(ops[1..], x, Id));
  }

  /** A delete of the runes w of the remaining text x = w + y: the inverse inserts them back. */
  lemma DeleteUndone(ops: seq<Op>, x: seq<char>, w: seq<char>, y: seq<char>, inv: Sequence, u: seq<char>, r: Sequence)
    requires ops != [] && ops[0].Delete? && |w| == ops[0].n && x == w + y && |y| == BaseOf(ops[1..]) && |u| == BaseOf(inv.ops)
    requires |u + Run(ops[1..], y, Id)| == BaseOf(r.ops)
    requires Run(r.ops, u + Run(ops[1..], y, Id), Id) == Run(AddInsert(inv, w).ops, u, Id) + y
    ensures |x| == BaseOf(ops) && |u + Run(ops, x, Id)| == BaseOf(r.ops)
    ensures Run(r.ops, u + Run(ops, x, Id), Id) == Run(inv.ops, u, Id) + x
  {
    RunDeleteHead(ops, w, y, Id);
    InsertRun(inv, w, u, Id);
    LiftId(w);
    Assoc(Run(inv.ops, u, Id), w, y);
  }

  /** A text is its first n runes followed by the rest. */
  lemma TakeDrop(x: seq<char>, n: nat)
    requires n <= |x|
    ensures x == x[..n] + x[n..]
  {
  }

  /** One iteration of the loop over the remaining text, on a retain. */
  lemma InvertRestRetain(ops: seq<Op>, x: seq<char>, inv: Sequence)
    requires ops != [] && ops[0].Retain? && |x| == BaseOf(ops)
    ensures ops[0].n <= |x| && |x[ops[0].n..]| == BaseOf(ops[1..])
    ensures InvertRest(ops, x, inv) == InvertRest(ops[1..], x[ops[0].n..], AddRetain(inv, ops[0].n))
  {
  }

  /** One iteration of the loop over the remaining text, on an insert. */
  lemma InvertRestInsert(ops: seq<Op>, x: seq<char>, inv: Sequence)
    requires ops != [] && ops[0].Insert? && |x| == BaseOf(ops)
    ensures |x| == BaseOf(ops[1..])
    ensures InvertRest(ops, x, inv) == InvertRest(ops[1..], x, AddDelete(inv, |ops[0].s|))
  {
  }

  /** One iteration of the loop over the remaining text, on a delete. */
  lemma InvertRestDelete(ops: seq<Op>, x: seq<char>, inv: Sequence)
    requires ops != [] && ops[0].Delete? && |x| == BaseOf(ops)
    ensures ops[0].n <= |x| && |x[ops[0].n..]| == BaseOf(ops[1..])
    ensures InvertRest(ops, x, inv) == InvertRest(ops[1..], x[ops[0].n..], AddInsert(inv, x[..ops[0].n]))
  {
  }

  /**
    What the loop returns, run on what the inverse so far has read followed
    by what the remaining operations write from the rest x of the text,
    writes what the inverse so far writes followed by x.
   */
  lemma {:induction false} InvertRestUndoes(ops: seq<Op>, x: seq<char>, inv: Sequence, u: seq<char>)
    requires |x| == BaseOf(ops) && |u| == BaseOf(inv.ops)
    ensures |u + Run(ops, x, Id)| == BaseOf(InvertRest(ops, x, inv).ops)
    ensures Run(InvertRest(ops, x, inv).ops, u + Run(ops, x, Id), Id) == Run(inv.ops, u, Id) + x
    decreases |ops|, 1
  {
    if ops == [] {
      EmptyConcat(u);
    } else if ops[0].Retain? {
      RetainRestUndoes(ops, x, inv, u);
    } else if ops[0].Insert? {
      InsertRestUndoes(ops, x, inv, u);
    } else {
      DeleteRestUndoes(ops, x, inv, u);
    }
  }

  /** `InvertRestUndoes` on a retain. */
  lemma {:induction false} RetainRestUndoes(ops: seq<Op>, x: seq<char>, inv: Sequence, u: seq<char>)
    requires ops != [] && ops[0].Retain? && |x| == BaseOf(ops) && |u| == BaseOf(inv.ops)
    ensures |u + Run(ops, x, Id)| == BaseOf(InvertRest(ops, x, inv).ops)
    ensures Run(InvertRest(ops, x, inv).ops, u + Run(ops, x, Id), Id) == Run(inv.ops, u, Id) + x
    decreases |ops|, 0
  {
    var n := ops[0].n;
    InvertRestRetain(ops, x, inv);
    TakeDrop(x, n);
    var r := InvertRest(ops[1..], x[n..], AddRetain(inv, n));
    InvertRestUndoes(ops[1..], x[n..], AddRetain(inv, n), u + x[..n]);
    RetainUndone(ops, x, x[..n], x[n..], inv, u, r);
  }

  /** `InvertRestUndoes` on an insert. */
  lemma {:induction false} InsertRestUndoes(ops: seq<Op>, x: seq<char>, inv: Sequence, u: seq<char>)
    requires ops != [] && ops[0].Insert? && |x| == BaseOf(ops) && |u| == BaseOf(inv.ops)
    ensures |u + Run(ops, x, Id)| == BaseOf(InvertRest(ops, x, inv).ops)
    ensures Run(InvertRest(ops, x, inv).ops, u + Run(ops, x, Id), Id) == Run(inv.ops, u, Id) + x
    decreases |ops|, 0
  {
    InvertRestInsert(ops, x, inv);
    var r := InvertRest(ops[1..], x, AddDelete(inv, |ops[0].s|));
    InvertRestUndoes(ops[1..], x, AddDelete(inv, |ops[0].s|), u + ops[0].s);
    InsertUndone(ops, x, inv, u, r);
  }

  /** `InvertRestUndoes` on a delete. */
  lemma {:induction false} DeleteRestUndoes(ops: seq<Op>, x: seq<char>, inv: Sequence, u: seq<char>)
    requires ops != [] && ops[0].Delete? && |x| == BaseOf(ops) && |u| == BaseOf(inv.ops)
    ensures |u + Run(ops, x, Id)| == BaseOf(InvertRest(ops, x, inv).ops)
    ensures Run(InvertRest(ops, x, inv).ops, u + Run(ops, x, Id), Id) == Run(inv.ops, u, Id) + x
    decreases |ops|, 0
  {
    var n := ops[0].n;
    InvertRestDelete(ops, x, inv);
    TakeDrop(x, n);
    var r := InvertRest(ops[1..], x[n..], AddInsert(inv, x[..n]));
    InvertRestUndoes(ops[1..], x[n..], AddInsert(inv, x[..n]), u);
    DeleteUndone(ops, x, x[..n], x[n..], inv, u, r);
  }

  /** The inverse, run on what the sequence writes from s, gives back s. */
  lemma InvertUndoes(q: Sequence, s: seq<char>)
    requires |s| == BaseOf(q.ops)
    ensures Reaches(q.ops, 0, |s|)
    ensures |Run(q.ops, s, Id)| == BaseOf(Invert(q, s).ops)
    ensures Run(Invert(q, s).ops, Run(q.ops, s, Id), Id) == s
  {
    InvertFromRest(q.ops, s, 0, NewSequence());
    InvertRestUndoes(q.ops, s, NewSequence(), []);
    EmptyConcat(Run(q.ops, s, Id));
    EmptyConcat(s);
  }

  /**
    Applying a sequence and then its inverse gives the text back
    (sequence_test.go:244-266).
   */
  lemma InvertApply(q: Sequence, s: seq<char>)
    requires Valid(q) && |s| == q.baseLen
    ensures Reaches(q.ops, 0, |s|)
    ensures Apply(q, s).Ok? && Apply(Invert(q, s), Apply(q, s).value) == Ok(s)
  {
    InvertUndoes(q, s);
  }
}
