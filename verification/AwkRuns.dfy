/** For every program: what the lazy record shows is what the eager one shows. */
module AwkRuns {
  import opened Options
  import opened AwkSplit
  import opened AwkEager
  import opened AwkRecord

  /** The text that is still to be split, and the separator for it. */
  type Pending = Option<(string, string)>

  function PendingAfter(o: Oracle, vars: Variables, pending: Pending, op: Op): Pending
  {
    match op
    case ReadRecord(text) => Some((text, ToText(o, vars.fs, Format(vars))))
    case GetField(i) => if i.Floor == 0 then pending else None
    case SetField(j, v) => if j.Floor == 0 then Some((ToText(o, v, Format(vars)), ToText(o, vars.fs, Format(vars)))) else None
    case GetNF => None
    case SetNF(_) => None
    case Assign(_, _) => pending
  }

  function VarsAfter(vars: Variables, op: Op): Variables
  {
    if op.Assign? then Assigned(vars, op.name, op.x) else vars
  }

  /** RS does not become, or stop being, empty while a text is to be split to which that matters. */
  predicate RsSettled(o: Oracle, vars: Variables, pending: Pending, op: Op)
    requires Sound(o)
  {
    !(op.Assign? && op.name == RS && pending.Some? && Paragraph(VarsAfter(vars, op)) != Paragraph(vars)
      && NewlinesMatter(o, pending.value.0, pending.value.1))
  }

  predicate AllSettled(o: Oracle, vars: Variables, pending: Pending, ops: seq<Op>)
    requires Sound(o)
    decreases |ops|
  {
    ops == [] || (RsSettled(o, vars, pending, ops[0])
      && AllSettled(o, VarsAfter(vars, ops[0]), PendingAfter(o, vars, pending, ops[0]), ops[1..]))
  }

  /** What a record has pending. */
  ghost function PendingOf(r: Record): Pending
    requires r.Valid()
    reads r, r.fld
  {
    if r.fieldsValid then None else Some((r.Waiting(), r.recFs))
  }

  /** One operation of the lazy machine. */
  method Do(r: Record, op: Op) returns (out: Outcome)
    requires r.Valid() && RsSettled(r.oracle, r.vars, PendingOf(r), op)
    modifies r, r.fld
    ensures r.Valid() && (r.fld == old(r.fld) || fresh(r.fld))
    ensures out == Step(r.oracle, old(r.Abs()), op).1 && r.Abs() == Step(r.oracle, old(r.Abs()), op).0
    ensures out != Fatal ==> PendingOf(r) == PendingAfter(r.oracle, old(r.vars), old(PendingOf(r)), op)
    ensures r.vars == VarsAfter(old(r.vars), op)
  {
    hide Sound, Fields, FieldValues, NewlinesMatter, WithField, WithCount, Read, Rebuilt, Record.Abs, BadCount, Assigned, Joined;
    out := Done;
    match op {
      case ReadRecord(text) =>
        r.SetRecord(text);
      case GetField(i) =>
        if BadCount(i) {
          return Fatal;
        }
        FloorSmall(i);
        var v := r.GetFieldAt(i.Floor);
        out := Saw(v);
      case SetField(j, v) =>
        if BadCount(j) {
          return Fatal;
        }
        FloorSmall(j);
        r.SetFieldAt(j.Floor, v);
      case GetNF =>
        var v := r.GetCount();
        out := Saw(v);
      case SetNF(d) =>
        out := r.SetCount(d);
      case Assign(name, x) =>
        r.AssignVariable(name, x);
    }
  }

  /** The observations of the eager machine, put after those already made. */
  lemma {:induction false} SeenNext(o: Oracle, e: Eager, ops: seq<Op>, i: nat, seen: seq<Outcome>)
    requires Sound(o) && i < |ops|
    ensures Step(o, e, ops[i]).1 == Fatal ==> seen + Seen(o, e, ops[i..]) == seen + [Fatal]
    ensures Step(o, e, ops[i]).1 != Fatal ==>
      seen + Seen(o, e, ops[i..]) == (seen + [Step(o, e, ops[i]).1]) + Seen(o, Step(o, e, ops[i]).0, ops[i + 1..])
  {
    hide Step, Sound;
    assert ops[i..][1..] == ops[i + 1..] && ops[i..][0] == ops[i];
  }

  lemma {:induction false} SettledNext(o: Oracle, vars: Variables, pending: Pending, ops: seq<Op>, i: nat)
    requires Sound(o) && i < |ops| && AllSettled(o, vars, pending, ops[i..])
    ensures RsSettled(o, vars, pending, ops[i])
    ensures AllSettled(o, VarsAfter(vars, ops[i]), PendingAfter(o, vars, pending, ops[i]), ops[i + 1..])
  {
    hide RsSettled, PendingAfter, VarsAfter, Sound;
    assert ops[i..][1..] == ops[i + 1..] && ops[i..][0] == ops[i];
  }

  lemma {:induction false} SeenNothing(o: Oracle, e: Eager, ops: seq<Op>, i: nat, seen: seq<Outcome>)
    requires Sound(o) && i == |ops|
    ensures seen + Seen(o, e, ops[i..]) == seen
  {
  }

  /** A run of the lazy machine from any state shows what a run of the eager machine from the same state
      shows. */
  method Run(r: Record, ops: seq<Op>) returns (seen: seq<Outcome>)
    requires r.Valid() && AllSettled(r.oracle, r.vars, PendingOf(r), ops)
    modifies r, r.fld
    ensures seen == Seen(r.oracle, old(r.Abs()), ops)
  {
    hide Sound, Step, Seen, AllSettled, RsSettled, PendingAfter, PendingOf, VarsAfter, Record.Abs;
    ghost var goal := Seen(r.oracle, r.Abs(), ops);
    seen := [];
    var i := 0;
    assert ops[0..] == ops;
    assert seen + goal == goal;
    while i < |ops|
      invariant i <= |ops| && r.Valid() && (r.fld == old(r.fld) || fresh(r.fld))
      invariant AllSettled(r.oracle, r.vars, PendingOf(r), ops[i..])
      invariant seen + Seen(r.oracle, r.Abs(), ops[i..]) == goal
    {
      SettledNext(r.oracle, r.vars, PendingOf(r), ops, i);
      SeenNext(r.oracle, r.Abs(), ops, i, seen);
      var out := Do(r, ops[i]);
      seen := seen + [out];
      if out == Fatal {
        return;
      }
      i := i + 1;
    }
    SeenNothing(r.oracle, r.Abs(), ops, i, seen);
  }

  // ---- when RS changes in between ----

  /** Records with different fields can be told apart. */
  lemma {:induction false} ToldApart(o: Oracle, e: Eager, e': Eager) returns (op: Op)
    requires Sound(o) && e.fields != e'.fields && |e.fields| <= FIELD_MAX && |e'.fields| <= FIELD_MAX
    ensures op.GetNF? || op.GetField?
    ensures Step(o, e, op).1 != Step(o, e', op).1
  {
    if |e.fields| != |e'.fields| {
      op := GetNF;
    } else {
      var i :| 0 <= i < |e.fields| && e.fields[i] != e'.fields[i];
      op := GetField((i + 1) as real);
    }
  }

  /** The pieces of two lines without a comma. */
  lemma {:induction false} TwoLines(o: Oracle, s: string)
    requires Sound(o) && s == ['a', '\n', 'b']
    ensures |Fields(o, s, [','], false)| == 1 && |Fields(o, s, [','], true)| == 2
  {
    hide Sound;
    assert Pieces(s, ',', false, 0, 3) == [s];
    assert Pieces(s, ',', false, 0, 2) == [s];
    assert Pieces(s, ',', false, 0, 1) == [s];
    assert Pieces(s, ',', true, 2, 3) == [s[2..]];
    assert Pieces(s, ',', true, 2, 2) == [s[2..]];
    assert Pieces(s, ',', true, 0, 1) == [s[0..1], s[2..]];
  }

  lemma {:induction false} EagerLines(o: Oracle, vars: Variables, s: string)
    requires Sound(o) && s == ['a', '\n', 'b']
    requires vars == Variables(Text([',']), Text([' ']), Uninit, Text(['\n']))
    ensures Seen(o, Eager(Uninit, [], vars), [ReadRecord(s), Assign(RS, Text([])), GetNF]) == [Done, Done, Saw(Number(1.0))]
  {
    hide Sound, Fields, Seen;
    TwoLines(o, s);
    var ops := [ReadRecord(s), Assign(RS, Text([])), GetNF];
    var e0 := Eager(Uninit, [], vars);
    var e1 := Step(o, e0, ops[0]).0;
    var e2 := Step(o, e1, ops[1]).0;
    SeenNext(o, e0, ops, 0, []);
    SeenNext(o, e1, ops, 1, [Done]);
    SeenNext(o, e2, ops, 2, [Done, Done]);
    SeenNothing(o, e2, ops, 3, [Done, Done, Saw(Number(1.0))]);
    assert ops[0..] == ops && [] + Seen(o, e0, ops) == Seen(o, e0, ops);
    assert [] + [Done] == [Done] && [Done] + [Done] == [Done, Done];
  }

  /** With a comma as separator, a record of two lines is one field, but two when RS is emptied before
      NF is first used. */
  method LateSeparator(o: Oracle) returns (count: Value)
    requires Sound(o)
    ensures count == Number(2.0)
    ensures Seen(o, Eager(Uninit, [], Variables(Text([',']), Text([' ']), Uninit, Text(['\n']))),
        [ReadRecord(['a', '\n', 'b']), Assign(RS, Text([])), GetNF]) == [Done, Done, Saw(Number(1.0))]
  {
    hide Sound, Fields, Seen;
    var vars := Variables(Text([',']), Text([' ']), Uninit, Text(['\n']));
    var s := ['a', '\n', 'b'];
    var r := new Record(o, vars);
    r.SetRecord(s);
    TwoLines(o, s);
    EagerLines(o, vars, s);
    r.AssignVariable(RS, Text([]));
    count := r.GetCount();
  }
}
