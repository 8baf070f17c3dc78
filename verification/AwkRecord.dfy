/** awk's record as it is kept: split when a field is wanted, put together when $0 is wanted. */
module AwkRecord {
  import opened AwkSplit
  import opened AwkEager

  class Record {
    const oracle: Oracle
    var fld: array<Value>
    var nf: nat
    var fieldsValid: bool
    var recDirty: bool
    var recFs: string
    var countCell: Value
    var vars: Variables

    ghost predicate Valid()
      reads this, fld
    {
      && Sound(oracle) && nf < fld.Length
      && (recDirty ==> fieldsValid)
      && (!fieldsValid ==> fld[0].StrNum?)
      && (fieldsValid ==> countCell == Number(nf as real))
    }

    /** The text of $0 before it is split. */
    ghost function Waiting(): string
      requires Valid() && !fieldsValid
      reads this, fld
    {
      fld[0].s
    }

    /** The fields that it would be split into. */
    ghost function SplitBy(paragraph: bool): seq<Value>
      requires Valid() && !fieldsValid
      reads this, fld
    {
      FieldValues(Fields(oracle, Waiting(), recFs, paragraph))
    }

    /** The record as a program sees it. */
    ghost function Abs(): Eager
      requires Valid()
      reads this, fld
    {
      if !fieldsValid then Eager(fld[0], SplitBy(Paragraph(vars)), vars)
      else
        var f := fld[1..nf + 1];
        Eager(if recDirty then Rebuilt(oracle, f, vars) else fld[0], f, vars)
    }

    constructor (oracle: Oracle, vars: Variables)
      requires Sound(oracle)
      ensures Valid() && fresh(fld) && this.oracle == oracle && Abs() == Eager(Uninit, [], vars)
    {
      this.oracle := oracle;
      this.vars := vars;
      fld := new Value[64](_ => Uninit);
      nf, fieldsValid, recDirty, recFs, countCell := 0, true, false, [], Number(0.0);
    }

    /** fld_reserve: room for the fields up to n. */
    method Reserve(n: nat)
      modifies this`fld
      ensures fld == old(fld) || fresh(fld)
      ensures n + 1 < fld.Length && old(fld.Length) <= fld.Length
      ensures fld[..old(fld.Length)] == old(fld[..])
    {
      if n + 1 >= fld.Length {
        var nc := if fld.Length > 0 then fld.Length else 64;
        while nc <= n + 1
          invariant nc > 0 && nc >= fld.Length
          decreases n + 1 - nc
        {
          nc := nc * 2;
        }
        var from := fld;
        var a := new Value[nc](_ => Uninit);
        forall k | 0 <= k < from.Length {
          a[k] := from[k];
        }
        fld := a;
      }
    }

    /** add_field */
    method AddField(s: string)
      requires nf < fld.Length
      modifies this`fld, this`nf, fld
      ensures fld == old(fld) || fresh(fld)
      ensures nf == old(nf) + 1 && nf < fld.Length
      ensures fld[0] == old(fld[0]) && fld[1..nf + 1] == old(fld[1..nf + 1]) + [FieldValue(s)]
    {
      ghost var was := fld[..];
      Reserve(nf + 1);
      SameSlice(fld[..], was, 1, nf + 1);
      nf := nf + 1;
      fld[nf] := FieldValue(s);
      assert fld[1..nf + 1] == fld[1..nf] + [fld[nf]];
    }
 
    /** The fields are taken off before they are made anew. */
    method ClearFields()
      requires nf < fld.Length
      modifies this`nf, fld
      ensures nf == 0 && fld[0] == old(fld[0])
    {
      for i := 1 to nf + 1
        invariant fld[0] == old(fld[0]) && nf < fld.Length
        modifies fld
      {
        fld[i] := Uninit;
      }
      nf := 0;
    }

    method AddFields(f: seq<string>)
      requires nf == 0 < fld.Length
      modifies this`fld, this`nf, fld
      ensures fld == old(fld) || fresh(fld)
      ensures nf == |f| < fld.Length && fld[0] == old(fld[0]) && fld[1..nf + 1] == FieldValues(f)
    {
      hide FieldValues;
      NoFieldValues(f[..0]);
      for i := 0 to |f|
        invariant fld == old(fld) || fresh(fld)
        invariant nf == i < fld.Length && fld[0] == old(fld[0]) && fld[1..nf + 1] == FieldValues(f[..i])
      {
        AddField(f[i]);
        FieldValuesSnoc(f, i);
      }
      assert f[..|f|] == f;
    }

    /** ensure_split: the fields are made, by the separator of the time when the record was read. */
    method EnsureSplit()
      requires Valid()
      modifies this`fld, this`nf, this`fieldsValid, this`countCell, fld
      ensures Valid() && fieldsValid && (fld == old(fld) || fresh(fld)) && Abs() == old(Abs())
    {
      hide Sound, Fields, FieldValues, Rebuilt;
      if fieldsValid {
        return;
      }
      fieldsValid := true;
      ClearFields();
      var s := ToText(oracle, fld[0], Format(vars));
      var f := AwkSplit.Split(oracle, s, recFs, Paragraph(vars));
      AddFields(f);
      countCell := Number(nf as real);
    }

    /** set_record: the record waits to be split by the separator of now. */
    method SetRecord(s: string)
      requires Valid()
      modifies this`fld, this`fieldsValid, this`recDirty, this`recFs, fld
      ensures Valid() && (fld == old(fld) || fresh(fld)) && Abs() == Read(oracle, old(Abs()), s)
      ensures !fieldsValid && Waiting() == s && recFs == ToText(oracle, vars.fs, Format(vars))
    {
      hide Sound, Fields, FieldValues, Rebuilt;
      Reserve(0);
      fld[0] := StrNum(s);
      fieldsValid := false;
      recDirty := false;
      recFs := ToText(oracle, vars.fs, Format(vars));
    }

    /** The fields with the separator between them. */
    method JoinFields() returns (b: string)
      requires Valid() && fieldsValid
      ensures StrNum(b) == Rebuilt(oracle, fld[1..nf + 1], vars)
    {
      hide Sound, Fields, FieldValues, ToText;
      var ofs := ToText(oracle, vars.ofs, Format(vars));
      b := [];
      ghost var f := fld[1..nf + 1];
      for i := 1 to nf + 1
        invariant b == Joined(oracle, f[..i - 1], ofs, Format(vars))
      {
        if i > 1 {
          b := b + ofs;
        }
        JoinedNext(oracle, f, i - 1, ofs, Format(vars));
        b := b + ToText(oracle, fld[i], Format(vars));
      }
      assert f[..nf] == f;
    }

    /** rebuild_record: $0 is put together from the fields, with the variables of now. */
    method RebuildRecord()
      requires Valid() && fieldsValid
      modifies this`recDirty, fld
      ensures Valid() && !recDirty && fld[1..nf + 1] == old(fld[1..nf + 1])
      ensures fld[0] == Rebuilt(oracle, fld[1..nf + 1], vars)
      ensures old(recDirty) ==> Abs() == old(Abs())
    {
      hide Sound, Rebuilt;
      var b := JoinFields();
      ghost var f := fld[1..nf + 1];
      fld[0] := StrNum(b);
      recDirty := false;
      assert fld[1..nf + 1] == f;
    }

    /** get_field */
    method GetFieldAt(i: nat) returns (v: Value)
      requires Valid()
      modifies this`fld, this`nf, this`fieldsValid, this`recDirty, this`countCell, fld
      ensures Valid() && (fld == old(fld) || fresh(fld)) && Abs() == old(Abs()) && v == FieldOf(Abs(), i)
      ensures fieldsValid == (old(fieldsValid) || i != 0) && (!fieldsValid ==> Waiting() == old(Waiting()))
    {
      hide Sound, Fields, FieldValues, Rebuilt;
      if i == 0 {
        if recDirty {
          RebuildRecord();
        }
        return fld[0];
      }
      EnsureSplit();
      v := if i > nf then Uninit else fld[i];
    }

    /** NF, when a program reads it. */
    method GetCount() returns (v: Value)
      requires Valid()
      modifies this`fld, this`nf, this`fieldsValid, this`countCell, fld
      ensures Valid() && (fld == old(fld) || fresh(fld)) && Abs() == old(Abs()) && v == Number(|Abs().fields| as real)
      ensures fieldsValid
    {
      EnsureSplit();
      v := countCell;
    }

    /** Fields without a value up to n. */
    method Extend(n: nat)
      requires nf < fld.Length && nf <= n
      modifies this`fld, this`nf, fld
      ensures (fld == old(fld) || fresh(fld)) && nf == n < fld.Length
      ensures fld[0] == old(fld[0]) && fld[1..nf + 1] == Extended(old(fld[1..nf + 1]), n)
    {
      ghost var was := fld[..];
      ghost var k := nf;
      Reserve(n);
      SameSlice(fld[..], was, 1, k + 1);
      ghost var f := fld[1..k + 1];
      for j := nf + 1 to n + 1
        invariant n + 1 <= fld.Length && fld[0] == was[0] && fld[1..k + 1] == f
        invariant forall l :: k < l < j ==> fld[l] == Uninit
        modifies fld
      {
        fld[j] := Uninit;
      }
      nf := n;
    }

    /** set_nf: fields are made or dropped. */
    method SetCount(d: real) returns (out: Outcome)
      requires Valid()
      modifies this`fld, this`nf, this`fieldsValid, this`recDirty, this`countCell, fld
      ensures Valid() && (fld == old(fld) || fresh(fld))
      ensures out == (if BadCount(d) then Fatal else Done)
      ensures Abs() == if BadCount(d) then old(Abs()) else WithCount(oracle, old(Abs()), d)
      ensures fieldsValid
    {
      hide Sound, Fields, FieldValues, Rebuilt, BadCount;
      EnsureSplit();
      if BadCount(d) {
        return Fatal;
      }
      FloorSmall(d);
      var n: nat := d.Floor;
      if n > nf {
        Extend(n);
      } else {
        Shrink(n);
      }
      countCell := Number(n as real);
      recDirty := true;
      out := Done;
    }

    method StoreField(i: nat, v: Value)
      requires 1 <= i <= nf < fld.Length
      modifies fld
      ensures fld[0] == old(fld[0]) && fld[1..nf + 1] == old(fld[1..nf + 1])[i - 1 := Stored(v)]
    {
      fld[i] := if v == Uninit then Text([]) else v;
    }

    /** Fields beyond n are dropped. */
    method Shrink(n: nat)
      requires n <= nf < fld.Length
      modifies this`nf, fld
      ensures nf == n && fld[0] == old(fld[0]) && fld[1..nf + 1] == old(fld[1..nf + 1])[..n]
    {
      ghost var f := fld[1..nf + 1];
      for i := n + 1 to nf + 1
        invariant fld[1..n + 1] == f[..n] && nf < fld.Length && fld[0] == old(fld[0])
        modifies fld
      {
        fld[i] := Uninit;
      }
      nf := n;
    }

    /** set_field: $0 is read anew; another field makes the record due to be put together. */
    method SetFieldAt(i: nat, v: Value)
      requires Valid()
      modifies this`fld, this`nf, this`fieldsValid, this`recDirty, this`countCell, this`recFs, fld
      ensures Valid() && (fld == old(fld) || fresh(fld)) && Abs() == WithField(oracle, old(Abs()), i, v)
      ensures fieldsValid == (i != 0)
      ensures i == 0 ==> Waiting() == ToText(oracle, v, Format(vars)) && recFs == ToText(oracle, vars.fs, Format(vars))
    {
      hide Sound, Fields, FieldValues, Rebuilt;
      if i == 0 {
        SetRecord(ToText(oracle, v, Format(vars)));
        return;
      }
      PutField(i, v);
    }

    /** The fields up to i are there. */
    method MakeFields(i: nat)
      requires Valid()
      modifies this`fld, this`nf, this`fieldsValid, this`countCell, fld
      ensures Valid() && fieldsValid && (fld == old(fld) || fresh(fld)) && i <= nf
      ensures fld[1..nf + 1] == Extended(old(Abs()).fields, i)
    {
      hide Sound, Fields, FieldValues, Rebuilt, ToText, Format, Paragraph, Read;
      EnsureSplit();
      if i > nf {
        Extend(i);
        countCell := Number(nf as real);
      }
    }

    method PutField(i: nat, v: Value)
      requires Valid() && i > 0
      modifies this`fld, this`nf, this`fieldsValid, this`recDirty, this`countCell, fld
      ensures Valid() && fieldsValid && (fld == old(fld) || fresh(fld)) && Abs() == WithField(oracle, old(Abs()), i, v)
    {
      hide Sound, Fields, FieldValues, Rebuilt, ToText, Format, Paragraph, Read, Extended;
      MakeFields(i);
      StoreField(i, v);
      recDirty := true;
    }

    /** Assigning a variable: before the output separator or the format changes, $0 is put together. A
        record that is still to be split sees a new RS: the assignment is as if it had been split before
        unless RS becomes, or stops being, empty and newlines matter to the fields. */
    method AssignVariable(name: Name, x: Value)
      requires Valid()
      modifies this`recDirty, this`vars, fld
      ensures Valid() && fld == old(fld) && vars == Assigned(old(vars), name, x)
      ensures !fieldsValid ==> Waiting() == old(Waiting())
      ensures Abs() != WithVariable(old(Abs()), name, x) <==>
        (!old(fieldsValid) && name == RS && Paragraph(vars) != old(Paragraph(vars)) && old(NewlinesMatter(oracle, Waiting(), recFs)))
    {
      hide Sound, Fields, FieldValues, Joined, NewlinesMatter;
      if recDirty && (name == OFS || name == CONVFMT) {
        RebuildRecord();
      }
      vars := Assigned(vars, name, x);
      if !fieldsValid {
        SplitMatters(oracle, fld[0].s, recFs);
      }
    }
  }

  /** Different fields have different values. */
  lemma {:induction false} SplitMatters(o: Oracle, s: string, fs: string)
    requires Sound(o)
    ensures FieldValues(Fields(o, s, fs, true)) != FieldValues(Fields(o, s, fs, false)) <==> NewlinesMatter(o, s, fs)
  {
    hide Sound, Fields, NewlinesMatter;
    NewlinesMatterIff(o, s, fs);
    var f, g := Fields(o, s, fs, true), Fields(o, s, fs, false);
    if FieldValues(f) == FieldValues(g) {
      forall i | 0 <= i < |f|
        ensures f[i] == g[i]
      {
        assert FieldValues(f)[i] == FieldValues(g)[i];
      }
      assert f == g;
    }
  }

  lemma {:induction false} SameSlice<T>(a: seq<T>, b: seq<T>, i: nat, j: nat)
    requires |b| <= |a| && a[..|b|] == b && i <= j <= |b|
    ensures a[i..j] == b[i..j]
  {
    assert a[..|b|][i..j] == a[i..j];
  }

  lemma {:induction false} FloorSmall(d: real)
    requires !BadCount(d)
    ensures 0 <= d.Floor <= FIELD_MAX
  {
  }

  lemma {:induction false} JoinedNext(o: Oracle, f: seq<Value>, i: nat, ofs: string, format: string)
    requires i < |f|
    ensures Joined(o, f[..i + 1], ofs, format) == (if i > 0 then Joined(o, f[..i], ofs, format) + ofs else Joined(o, f[..i], ofs, format)) + ToText(o, f[i], format)
  {
    assert f[..i + 1][..i] == f[..i];
    if i == 0 {
      assert f[..0] == [];
      assert [] + ToText(o, f[0], format) == ToText(o, f[0], format);
    }
  }

  lemma {:induction false} NoFieldValues(f: seq<string>)
    requires f == []
    ensures FieldValues(f) == []
  {
  }

  lemma {:induction false} FieldValuesSnoc(f: seq<string>, i: nat)
    requires i < |f|
    ensures FieldValues(f[..i]) + [FieldValue(f[i])] == FieldValues(f[..i + 1])
  {
  }
}
