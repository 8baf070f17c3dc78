/** What reads and assignments mean for the fields and for $0, as a program can see. */
module AwkLaws {
  import opened AwkSplit
  import opened AwkEager

  // ---- putting together ----

  lemma {:induction false} JoinSnoc(f: seq<string>, x: string, ofs: string)
    requires f != []
    ensures Join(f + [x], ofs) == Join(f, ofs) + ofs + x
  {
    if |f| == 1 {
      assert (f + [x])[1..] == [x];
    } else {
      assert (f + [x])[1..] == f[1..] + [x];
      JoinSnoc(f[1..], x, ofs);
      assert f[0] + ofs + (Join(f[1..], ofs) + ofs + x) == f[0] + ofs + Join(f[1..], ofs) + ofs + x;
    }
  }

  /** The texts of values: of numbers under the format, of no value empty. */
  function Texts(o: Oracle, f: seq<Value>, format: string): (t: seq<string>)
    ensures |t| == |f|
  {
    seq(|f|, i requires 0 <= i < |f| =>
      if f[i].Uninit? then [] else if f[i].Number? then o.numText(f[i].n, format) else f[i].s)
  }

  lemma {:induction false} JoinedIsJoin(o: Oracle, f: seq<Value>, ofs: string, format: string)
    ensures Joined(o, f, ofs, format) == Join(Texts(o, f, format), ofs)
  {
    hide Join;
    if |f| > 1 {
      var n := |f| - 1;
      JoinedIsJoin(o, f[..n], ofs, format);
      assert Texts(o, f, format) == Texts(o, f[..n], format) + [ToText(o, f[n], format)];
      JoinSnoc(Texts(o, f[..n], format), ToText(o, f[n], format), ofs);
    } else {
      JoinFew(Texts(o, f, format), ofs);
    }
  }

  lemma {:induction false} JoinFew(t: seq<string>, ofs: string)
    requires |t| <= 1
    ensures Join(t, ofs) == if t == [] then [] else t[0]
  {
  }

  /** A record split at a character and put together with that character is the record. */
  lemma {:induction false} RebuiltIsText(o: Oracle, s: string, c: char, vars: Variables)
    requires Sound(o) && s != [] && c != ' ' && vars.ofs == Text([c])
    ensures Rebuilt(o, FieldValues(Fields(o, s, [c], false)), vars) == StrNum(s)
  {
    hide Sound, Words, Characters, Separated, Pieces, Join, Joined;
    assert [c][0] == c;
    var f := Pieces(s, c, false, 0, 0);
    PiecesJoin(s, c, 0, 0);
    assert s[0..] == s;
    JoinedIsJoin(o, FieldValues(f), [c], Format(vars));
    assert Texts(o, FieldValues(f), Format(vars)) == f;
  }

  // ---- single operations ----

  function OfsText(o: Oracle, v: Variables): string
  {
    if v.ofs.Uninit? then [] else if v.ofs.Number? then o.numText(v.ofs.n, ConvFmt(v)) else v.ofs.s
  }

  function ConvFmt(v: Variables): string
  {
    match v.convfmt
    case Text(s) => s
    case StrNum(s) => s
    case _ => "%.6g"
  }

  /** $0 is the texts of the fields with OFS between them. */
  ghost predicate PutTogether(o: Oracle, e: Eager)
  {
    e.record == StrNum(Join(Texts(o, e.fields, ConvFmt(e.vars)), OfsText(o, e.vars)))
  }

  lemma {:induction false} RebuiltIs(o: Oracle, f: seq<Value>, v: Variables)
    ensures PutTogether(o, Eager(Rebuilt(o, f, v), f, v))
  {
    hide Join, Joined, Texts;
    JoinedIsJoin(o, f, OfsText(o, v), ConvFmt(v));
  }

  /** $i is set: it has the value, or empty text for none; fields up to it are made; the others and the
      variables stay; and $0 is put together. */
  lemma {:induction false} FieldSet(o: Oracle, e: Eager, i: nat, v: Value)
    requires Sound(o) && 1 <= i <= 10000000
    ensures
      var (after, out) := Step(o, e, SetField(i as real, v));
      && out == Done && after.vars == e.vars && PutTogether(o, after)
      && |after.fields| == (if i > |e.fields| then i else |e.fields|)
      && after.fields[i - 1] == (if v.Uninit? then Text([]) else v)
      && forall k :: 0 <= k < |after.fields| && k != i - 1 ==> after.fields[k] == if k < |e.fields| then e.fields[k] else Uninit
  {
    hide Sound, Rebuilt, PutTogether, Read;
    assert (i as real).Floor == i;
    var f := Extended(e.fields, i)[i - 1 := Stored(v)];
    RebuiltIs(o, f, e.vars);
  }

  /** NF is set: fields are dropped or made, and $0 is put together. */
  lemma {:induction false} CountSet(o: Oracle, e: Eager, d: real)
    requires Sound(o)
    ensures
      var (after, out) := Step(o, e, SetNF(d));
      if d < 0.0 || d > 10000000.0 then after == e && out == Fatal
      else
        && out == Done && after.vars == e.vars && PutTogether(o, after) && |after.fields| == d.Floor
        && forall k :: 0 <= k < |after.fields| ==> after.fields[k] == if k < |e.fields| then e.fields[k] else Uninit
  {
    hide Sound, Rebuilt, PutTogether;
    if !BadCount(d) {
      RebuiltIs(o, Resized(e.fields, d.Floor), e.vars);
    }
  }

  /** A record is read, or $0 is set: it is the text, and its fields are what FS makes of it, empty ones
      without a value. */
  lemma {:induction false} RecordRead(o: Oracle, e: Eager, s: string, fs: string)
    requires Sound(o) && e.vars.fs == Text(fs)
    ensures
      var (after, out) := Step(o, e, ReadRecord(s));
      var f := Fields(o, s, fs, e.vars.rs == Text([]) || e.vars.rs == StrNum([]));
      && out == Done && after.record == StrNum(s) && after.vars == e.vars && |after.fields| == |f|
      && forall k :: 0 <= k < |f| ==> after.fields[k] == if f[k] == [] then Uninit else StrNum(f[k])
    ensures Step(o, e, SetField(0.0, Text(s))) == Step(o, e, ReadRecord(s)) && Step(o, e, SetField(0.0, StrNum(s))) == Step(o, e, ReadRecord(s))
  {
    hide Sound, Fields;
  }

  /** What is read: $0, a field, no value beyond them, and their number; nothing changes by it. */
  lemma {:induction false} Shown(o: Oracle, e: Eager, i: nat)
    requires Sound(o) && i <= 10000000
    ensures Step(o, e, GetField(i as real)) == (e, Saw(if i == 0 then e.record else if i <= |e.fields| then e.fields[i - 1] else Uninit))
    ensures Step(o, e, GetNF) == (e, Saw(Number(|e.fields| as real)))
  {
    assert (i as real).Floor == i;
  }

  /** An index that is no field is refused, and nothing changes. */
  lemma {:induction false} Refused(o: Oracle, e: Eager, j: real, v: Value)
    requires Sound(o) && (j < 0.0 || j > 10000000.0)
    ensures Step(o, e, GetField(j)) == (e, Fatal) && Step(o, e, SetField(j, v)) == (e, Fatal)
  {
  }

  /** A variable is set: $0 and the fields stay. */
  lemma {:induction false} VariableSet(o: Oracle, e: Eager, x: Value)
    requires Sound(o)
    ensures Step(o, e, Assign(FS, x)) == (e.(vars := e.vars.(fs := x)), Done)
    ensures Step(o, e, Assign(OFS, x)) == (e.(vars := e.vars.(ofs := x)), Done)
    ensures Step(o, e, Assign(CONVFMT, x)) == (e.(vars := e.vars.(convfmt := x)), Done)
    ensures Step(o, e, Assign(RS, x)) == (e.(vars := e.vars.(rs := x)), Done) && Step(o, e, Assign(Other, x)) == (e, Done)
  {
  }
}
