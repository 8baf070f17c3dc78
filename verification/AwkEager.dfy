/** awk's record as a program sees it: split at once when it is read, put together at once when a field
    is assigned. */
module AwkEager {
  import opened AwkSplit

  /** A scalar value; StrNum is text from the input, which may look like a number. */
  datatype Value = Uninit | Number(n: real) | Text(s: string) | StrNum(s: string)

  /** The variables that matter to records. */
  datatype Name = FS | OFS | CONVFMT | RS | Other

  datatype Variables = Variables(fs: Value, ofs: Value, convfmt: Value, rs: Value)

  function Assigned(v: Variables, name: Name, x: Value): Variables
  {
    match name
    case FS => v.(fs := x)
    case OFS => v.(ofs := x)
    case CONVFMT => v.(convfmt := x)
    case RS => v.(rs := x)
    case Other => v
  }

  /** convfmt: the format for numbers, or the usual one when the variable is not text. */
  function Format(v: Variables): string
  {
    if v.convfmt.Text? || v.convfmt.StrNum? then v.convfmt.s else "%.6g"
  }

  /** val_tostr */
  function ToText(o: Oracle, x: Value, format: string): string
  {
    match x
    case Text(s) => s
    case StrNum(s) => s
    case Number(n) => o.numText(n, format)
    case Uninit => []
  }

  /** paragraph_mode: RS is empty text. */
  predicate Paragraph(v: Variables)
  {
    (v.rs.Text? || v.rs.StrNum?) && v.rs.s == []
  }

  function FieldValue(s: string): Value
  {
    if s == [] then Uninit else StrNum(s)
  }

  function FieldValues(f: seq<string>): (r: seq<Value>)
    ensures |r| == |f|
  {
    seq(|f|, i requires 0 <= i < |f| => FieldValue(f[i]))
  }

  /** The fields with the output separator between them. */
  function Joined(o: Oracle, f: seq<Value>, ofs: string, format: string): string
  {
    if f == [] then []
    else if |f| == 1 then ToText(o, f[0], format)
    else Joined(o, f[..|f| - 1], ofs, format) + ofs + ToText(o, f[|f| - 1], format)
  }

  function Rebuilt(o: Oracle, f: seq<Value>, v: Variables): Value
  {
    StrNum(Joined(o, f, ToText(o, v.ofs, Format(v)), Format(v)))
  }

  /** $0, the fields, and the variables; the program may have failed. */
  datatype Eager = Eager(record: Value, fields: seq<Value>, vars: Variables)

  /** Fields beyond the last are made, without a value. */
  function Extended(f: seq<Value>, n: nat): (r: seq<Value>)
    ensures |r| == if n > |f| then n else |f|
  {
    if n > |f| then f + seq(n - |f|, _ => Uninit) else f
  }

  function Resized(f: seq<Value>, n: nat): (r: seq<Value>)
    ensures |r| == n
  {
    if n > |f| then Extended(f, n) else f[..n]
  }

  const FIELD_MAX := 10000000

  function Read(o: Oracle, e: Eager, s: string): Eager
    requires Sound(o)
  {
    var fs := ToText(o, e.vars.fs, Format(e.vars));
    Eager(StrNum(s), FieldValues(Fields(o, s, fs, Paragraph(e.vars))), e.vars)
  }

  function FieldOf(e: Eager, i: nat): Value
  {
    if i == 0 then e.record else if i <= |e.fields| then e.fields[i - 1] else Uninit
  }

  /** A value without text is stored as empty text. */
  function Stored(v: Value): Value
  {
    if v == Uninit then Text([]) else v
  }

  function WithField(o: Oracle, e: Eager, i: nat, v: Value): Eager
    requires Sound(o)
  {
    if i == 0 then Read(o, e, ToText(o, v, Format(e.vars)))
    else
      var f := Extended(e.fields, i)[i - 1 := Stored(v)];
      Eager(Rebuilt(o, f, e.vars), f, e.vars)
  }

  predicate BadCount(d: real)
  {
    d < 0.0 || d > FIELD_MAX as real
  }

  function WithCount(o: Oracle, e: Eager, d: real): Eager
    requires !BadCount(d)
  {
    var f := Resized(e.fields, d.Floor);
    Eager(Rebuilt(o, f, e.vars), f, e.vars)
  }

  function WithVariable(e: Eager, name: Name, x: Value): Eager
  {
    e.(vars := Assigned(e.vars, name, x))
  }

  // ---- programs ----

  datatype Op =
    | ReadRecord(text: string)
    | GetField(i: real)
    | SetField(j: real, v: Value)
    | GetNF
    | SetNF(d: real)
    | Assign(name: Name, x: Value)

  datatype Outcome = Done | Saw(value: Value) | Fatal

  /** One operation of the eager machine. */
  function Step(o: Oracle, e: Eager, op: Op): (Eager, Outcome)
    requires Sound(o)
  {
    match op
    case ReadRecord(text) => (Read(o, e, text), Done)
    case GetField(i) => if BadCount(i) then (e, Fatal) else (e, Saw(FieldOf(e, i.Floor)))
    case SetField(j, v) => if BadCount(j) then (e, Fatal) else (WithField(o, e, j.Floor, v), Done)
    case GetNF => (e, Saw(Number(|e.fields| as real)))
    case SetNF(d) => if BadCount(d) then (e, Fatal) else (WithCount(o, e, d), Done)
    case Assign(name, x) => (WithVariable(e, name, x), Done)
  }

  /** What a program sees; it ends when an operation fails. */
  function Seen(o: Oracle, e: Eager, ops: seq<Op>): seq<Outcome>
    requires Sound(o)
    decreases |ops|
  {
    if ops == [] then [] else
      var (next, out) := Step(o, e, ops[0]);
      if out == Fatal then [Fatal] else [out] + Seen(o, next, ops[1..])
  }
}
