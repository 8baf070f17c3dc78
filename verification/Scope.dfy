/** bc's dynamic scoping: each name has a stack of values and one of arrays, of which the last is
    current; calls push parameters and autos, and a log of pushes undoes them, also after an error. */
module Scope {
  import opened Numbers

  type Sym = nat
  type Elements = seq<Num>

  const DIM_MAX := 16777215

  function Zero(): Num
  {
    Num(false, 0, [])
  }

  /** A push that will have to be undone. */
  datatype Push = Push(sym: Sym, isArray: bool)

  datatype Scope = Scope(vals: map<Sym, seq<Num>>, arrs: map<Sym, seq<Elements>>, pushed: seq<Push>)

  /** The values of a name; the first is there from the first use on. */
  function Vals(s: Scope, x: Sym): (v: seq<Num>)
    ensures |v| > 0
  {
    if x in s.vals && |s.vals[x]| > 0 then s.vals[x] else [Zero()]
  }

  function Arrs(s: Scope, x: Sym): (v: seq<Elements>)
    ensures |v| > 0
  {
    if x in s.arrs && |s.arrs[x]| > 0 then s.arrs[x] else [[]]
  }

  function ButLast<T>(v: seq<T>): seq<T>
  {
    if |v| > 0 then v[..|v| - 1] else []
  }

  function Last<T>(v: seq<T>): T
    requires |v| > 0
  {
    v[|v| - 1]
  }

  // ---- single changes ----

  /** The first use of a name. */
  function TouchVal(s: Scope, x: Sym): Scope
  {
    s.(vals := s.vals[x := Vals(s, x)])
  }

  function TouchArr(s: Scope, x: Sym): Scope
  {
    s.(arrs := s.arrs[x := Arrs(s, x)])
  }

  function SetVal(s: Scope, x: Sym, v: Num): Scope
  {
    s.(vals := s.vals[x := ButLast(Vals(s, x)) + [v]])
  }

  function SetArr(s: Scope, x: Sym, a: Elements): Scope
  {
    s.(arrs := s.arrs[x := ButLast(Arrs(s, x)) + [a]])
  }

  /** How long an array becomes for an index. */
  function Grown(n: nat, i: nat): nat
    requires n > 0
    decreases i + 1 - n
  {
    if n <= i then Grown(2 * n, i) else n
  }

  function Room(n: nat, i: nat): nat
  {
    if i < n then n else
      var m := Grown(if n > 0 then n else 16, i);
      if m > DIM_MAX then DIM_MAX else m
  }

  /** The array with an element set, longer if need be. */
  function WithElement(a: Elements, i: nat, v: Num): Elements
    requires i < DIM_MAX
  {
    Extended(a, i)[i := v]
  }

  /** The array with zeros up to the room it gets. */
  function Extended(a: Elements, i: nat): (r: Elements)
    requires i < DIM_MAX
    ensures i < |r| && (i < |a| ==> r == a)
  {
    RoomEnough(|a|, i);
    a + seq(Room(|a|, i) - |a|, _ => Zero())
  }

  lemma {:induction false} RoomEnough(n: nat, i: nat)
    requires i < DIM_MAX
    ensures n <= Room(n, i) && i < Room(n, i)
  {
    if i >= n {
      GrownEnough(if n > 0 then n else 16, i);
    }
  }

  lemma {:induction false} GrownEnough(n: nat, i: nat)
    requires n > 0
    ensures Grown(n, i) > i && Grown(n, i) >= n
    decreases i + 1 - n
  {
    if n <= i {
      GrownEnough(2 * n, i);
    }
  }

  function PushVal(s: Scope, x: Sym, v: Num): Scope
  {
    s.(vals := s.vals[x := Vals(s, x) + [v]], pushed := s.pushed + [Push(x, false)])
  }

  function PushArr(s: Scope, x: Sym, a: Elements): Scope
  {
    s.(arrs := s.arrs[x := Arrs(s, x) + [a]], pushed := s.pushed + [Push(x, true)])
  }

  /** The last push undone. */
  function Undo(s: Scope): Scope
    requires s.pushed != []
  {
    var p := Last(s.pushed);
    if p.isArray then s.(arrs := s.arrs[p.sym := ButLast(Arrs(s, p.sym))], pushed := ButLast(s.pushed))
    else s.(vals := s.vals[p.sym := ButLast(Vals(s, p.sym))], pushed := ButLast(s.pushed))
  }

  /** unwind_to */
  function UnwindTo(s: Scope, mark: nat): Scope
    decreases |s.pushed|
  {
    if |s.pushed| > mark then UnwindTo(Undo(s), mark) else s
  }

  // ---- what programs do ----

  datatype Param = Param(sym: Sym, isArray: bool)

  datatype Params = NoParams | MoreParams(first: Param, rest: Params)

  /** What running a program comes to, as far as names go; a call has what its arguments and its body
      do within it. */
  datatype Act =
    | Use(sym: Sym)
    | UseElement(sym: Sym, index: int)
    | Assign(sym: Sym, value: Num)
    | AssignElement(sym: Sym, index: int, value: Num)
    | Call(args: Args, params: Params, autos: Params, body: Acts)
    | Fail

  datatype Acts = Done | Then(act: Act, rest: Acts)

  /** An argument: what its evaluation does and its value, or an array. */
  datatype Arg = Value(before: Acts, value: Num) | WholeArray(sym: Sym)

  datatype Args = NoArgs | MoreArgs(arg: Arg, rest: Args)

  datatype Passed = PassedValue(value: Num) | PassedArray(elements: Elements)

  function ArgCount(args: Args): nat
  {
    if args.NoArgs? then 0 else 1 + ArgCount(args.rest)
  }

  function ParamCount(params: Params): nat
  {
    if params.NoParams? then 0 else 1 + ParamCount(params.rest)
  }

  function Exec(s: Scope, acts: Acts): (Scope, bool)
    decreases acts
  {
    match acts
    case Done => (s, true)
    case Then(act, rest) =>
      var (t, ok) := Do(s, act);
      if ok then Exec(t, rest) else (t, false)
  }

  function Do(s: Scope, act: Act): (Scope, bool)
    decreases act
  {
    match act
    case Use(x) => (TouchVal(s, x), true)
    case UseElement(x, i) => (TouchArr(s, x), 0 <= i < DIM_MAX)
    case Assign(x, v) => (SetVal(s, x, v), true)
    case AssignElement(x, i, v) =>
      if i < 0 || i >= DIM_MAX then (TouchArr(s, x), false)
      else (SetArr(s, x, WithElement(Last(Arrs(s, x)), i, v)), true)
    case Call(args, params, autos, body) =>
      var (t, ok, passed) := Evaluate(s, args, params);
      if ArgCount(args) != ParamCount(params) then (s, false)
      else if !ok then (t, false)
      else
        var (u, done) := Exec(PushAutos(PushParams(t, params, passed), autos), body);
        if done then (UnwindTo(u, |t.pushed|), true) else (u, false)
    case Fail => (s, false)
  }

  /** The arguments, one after the other; wrong in kind, they are an error. */
  function Evaluate(s: Scope, args: Args, params: Params): (Scope, bool, seq<Passed>)
    decreases args
  {
    match args
    case NoArgs => (s, params.NoParams?, [])
    case MoreArgs(arg, rest) =>
      if params.NoParams? || params.first.isArray != arg.WholeArray? then (s, false, [])
      else
        match arg
        case WholeArray(x) =>
          var got := PassedArray(Last(Arrs(s, x)));
          var (t, ok, more) := Evaluate(TouchArr(s, x), rest, params.rest);
          (t, ok, [got] + more)
        case Value(before, v) =>
          var (t, ok) := Exec(s, before);
          if !ok then (t, false, [])
          else
            var (u, ok', more) := Evaluate(t, rest, params.rest);
            (u, ok', [PassedValue(v)] + more)
  }

  function PushOne(s: Scope, p: Param, x: Passed): Scope
  {
    if p.isArray then PushArr(s, p.sym, if x.PassedArray? then x.elements else [])
    else PushVal(s, p.sym, if x.PassedValue? then x.value else Zero())
  }

  function PushParams(s: Scope, params: Params, passed: seq<Passed>): Scope
    decreases params
  {
    match params
    case NoParams => s
    case MoreParams(p, rest) =>
      if passed == [] then s else PushParams(PushOne(s, p, passed[0]), rest, passed[1..])
  }

  function PushAutos(s: Scope, autos: Params): Scope
    decreases autos
  {
    match autos
    case NoParams => s
    case MoreParams(p, rest) => PushAutos(PushOne(s, p, if p.isArray then PassedArray([]) else PassedValue(Zero())), rest)
  }

  // ---- what stays ----

  /** The same but for the current one. */
  ghost predicate SameBelow<T(!new)>(v: seq<T>, w: seq<T>)
  {
    |v| == |w| && ButLast(v) == ButLast(w)
  }

  /** All stacks are as high, and the same but for what is current. */
  ghost predicate Like(s: Scope, t: Scope)
  {
    forall x :: SameBelow(Vals(s, x), Vals(t, x)) && SameBelow(Arrs(s, x), Arrs(t, x))
  }

  /** These names have just what they had. */
  ghost predicate Exactly(s: Scope, t: Scope, names: set<Push>)
  {
    forall p :: p in names ==> if p.isArray then Arrs(s, p.sym) == Arrs(t, p.sym) else Vals(s, p.sym) == Vals(t, p.sym)
  }

  lemma {:induction false} LikeTransitive(s: Scope, t: Scope, u: Scope)
    requires Like(s, t) && Like(t, u)
    ensures Like(s, u)
  {
    hide ButLast, Vals, Arrs;
  }

  lemma {:induction false} SetValLike(s: Scope, x: Sym, v: Num)
    ensures Like(s, SetVal(s, x, v))
  {
  }

  lemma {:induction false} SetArrLike(s: Scope, x: Sym, a: Elements)
    ensures Like(s, SetArr(s, x, a))
  {
  }

  lemma {:induction false} ValsOf(s: Scope, x: Sym, v: seq<Num>, y: Sym)
    requires |v| > 0
    ensures Vals(s.(vals := s.vals[x := v]), y) == if y == x then v else Vals(s, y)
    ensures Arrs(s.(vals := s.vals[x := v]), y) == Arrs(s, y)
  {
  }

  lemma {:induction false} ArrsOf(s: Scope, x: Sym, a: seq<Elements>, y: Sym)
    requires |a| > 0
    ensures Arrs(s.(arrs := s.arrs[x := a]), y) == if y == x then a else Arrs(s, y)
    ensures Vals(s.(arrs := s.arrs[x := a]), y) == Vals(s, y)
  {
  }

  lemma {:induction false} PushedSame(s: Scope, p: seq<Push>, y: Sym)
    ensures Vals(s.(pushed := p), y) == Vals(s, y) && Arrs(s.(pushed := p), y) == Arrs(s, y)
  {
  }

  /** The stacks of a name after a push, and after a later undoing. */
  lemma {:induction false} PushUndo(s: Scope, p: Param, x: Passed, u: Scope, y: Sym)
    requires Like(PushOne(s, p, x), u) && u.pushed == PushOne(s, p, x).pushed
    ensures u.pushed != [] && Last(u.pushed) == Push(p.sym, p.isArray) && Undo(u).pushed == s.pushed
    ensures Vals(Undo(u), y) == if !p.isArray && y == p.sym then Vals(s, y) else Vals(u, y)
    ensures Arrs(Undo(u), y) == if p.isArray && y == p.sym then Arrs(s, y) else Arrs(u, y)
    ensures Vals(PushOne(s, p, x), y) == if !p.isArray && y == p.sym then Vals(PushOne(s, p, x), y) else Vals(s, y)
    ensures Arrs(PushOne(s, p, x), y) == if p.isArray && y == p.sym then Arrs(PushOne(s, p, x), y) else Arrs(s, y)
  {
    var t := PushOne(s, p, x);
    assert SameBelow(Vals(t, p.sym), Vals(u, p.sym)) && SameBelow(Arrs(t, p.sym), Arrs(u, p.sym));
    hide Like, Vals, Arrs;
    assert ButLast(u.pushed) == s.pushed;
    if p.isArray {
      var e := if x.PassedArray? then x.elements else [];
      ArrsOf(s, p.sym, Arrs(s, p.sym) + [e], y);
      ArrsOf(s, p.sym, Arrs(s, p.sym) + [e], p.sym);
      PushedSame(s.(arrs := s.arrs[p.sym := Arrs(s, p.sym) + [e]]), t.pushed, y);
      PushedSame(s.(arrs := s.arrs[p.sym := Arrs(s, p.sym) + [e]]), t.pushed, p.sym);
      assert ButLast(Arrs(t, p.sym)) == Arrs(s, p.sym);
      ArrsOf(u, p.sym, ButLast(Arrs(u, p.sym)), y);
      PushedSame(u.(arrs := u.arrs[p.sym := ButLast(Arrs(u, p.sym))]), s.pushed, y);
    } else {
      var v := if x.PassedValue? then x.value else Zero();
      ValsOf(s, p.sym, Vals(s, p.sym) + [v], y);
      ValsOf(s, p.sym, Vals(s, p.sym) + [v], p.sym);
      PushedSame(s.(vals := s.vals[p.sym := Vals(s, p.sym) + [v]]), t.pushed, y);
      PushedSame(s.(vals := s.vals[p.sym := Vals(s, p.sym) + [v]]), t.pushed, p.sym);
      assert ButLast(Vals(t, p.sym)) == Vals(s, p.sym);
      ValsOf(u, p.sym, ButLast(Vals(u, p.sym)), y);
      PushedSame(u.(vals := u.vals[p.sym := ButLast(Vals(u, p.sym))]), s.pushed, y);
    }
  }

  /** Whatever was done with a name since it was pushed, undoing the push gives back what it had. */
  lemma {:induction false} UndoOne(s: Scope, p: Param, x: Passed, u: Scope, names: set<Push>)
    requires Like(PushOne(s, p, x), u) && u.pushed == PushOne(s, p, x).pushed && Exactly(PushOne(s, p, x), u, names)
    ensures u.pushed != [] && Like(s, Undo(u)) && Undo(u).pushed == s.pushed
    ensures Exactly(s, Undo(u), names + {Push(p.sym, p.isArray)})
  {
    hide Vals, Arrs, PushOne, Undo;
    PushUndo(s, p, x, u, p.sym);
    var t, w := PushOne(s, p, x), Undo(u);
    forall y
      ensures SameBelow(Vals(s, y), Vals(w, y)) && SameBelow(Arrs(s, y), Arrs(w, y))
    {
      PushUndo(s, p, x, u, y);
      assert SameBelow(Vals(t, y), Vals(u, y)) && SameBelow(Arrs(t, y), Arrs(u, y));
    }
    forall q | q in names + {Push(p.sym, p.isArray)}
      ensures if q.isArray then Arrs(s, q.sym) == Arrs(w, q.sym) else Vals(s, q.sym) == Vals(w, q.sym)
    {
      PushUndo(s, p, x, u, q.sym);
    }
  }

  // ---- unwinding ----

  lemma {:induction false} UnwindTwice(u: Scope, k: nat, m: nat)
    requires m <= k
    ensures UnwindTo(u, m) == UnwindTo(UnwindTo(u, k), m)
    decreases |u.pushed|
  {
    hide Undo;
    if |u.pushed| > k {
      UndoShorter(u);
      UnwindTwice(Undo(u), k, m);
    }
  }

  lemma {:induction false} UndoShorter(u: Scope)
    requires u.pushed != []
    ensures |Undo(u).pushed| == |u.pushed| - 1
  {
  }

  lemma {:induction false} UnwindOne(u: Scope, m: nat)
    requires |u.pushed| == m + 1
    ensures UnwindTo(u, m) == Undo(u)
  {
    UndoShorter(u);
  }

  function NamesOf(params: Params): set<Push>
  {
    match params
    case NoParams => {}
    case MoreParams(p, rest) => NamesOf(rest) + {Push(p.sym, p.isArray)}
  }

  /** From u, pushes back to s are undone: it is like s, and exact for some names. */
  ghost predicate Restores(s: Scope, u: Scope, names: set<Push>)
  {
    var w := UnwindTo(u, |s.pushed|);
    Like(s, w) && w.pushed == s.pushed && Exactly(s, w, names)
  }

  lemma {:induction false} RestoreOne(s: Scope, p: Param, x: Passed, u: Scope, names: set<Push>)
    requires Restores(PushOne(s, p, x), u, names)
    ensures Restores(s, u, names + {Push(p.sym, p.isArray)})
  {
    var s1 := PushOne(s, p, x);
    var w := UnwindTo(u, |s1.pushed|);
    PushedMore(s, p, x);
    hide PushOne, UnwindTo, Like, Exactly, Undo;
    UndoOne(s, p, x, w, names);
    UnwindTwice(u, |s1.pushed|, |s.pushed|);
    UnwindOne(w, |s.pushed|);
  }

  lemma {:induction false} PushedMore(s: Scope, p: Param, x: Passed)
    ensures PushOne(s, p, x).pushed == s.pushed + [Push(p.sym, p.isArray)]
  {
  }

  lemma {:induction false} RestoreParams(s: Scope, params: Params, passed: seq<Passed>, u: Scope, names: set<Push>)
    requires |passed| == ParamCount(params) && Restores(PushParams(s, params, passed), u, names)
    ensures Restores(s, u, names + NamesOf(params))
    decreases params
  {
    hide Restores, PushOne;
    match params
    case NoParams =>
      assert names + {} == names;
    case MoreParams(p, rest) =>
      RestoreParams(PushOne(s, p, passed[0]), rest, passed[1..], u, names);
      RestoreOne(s, p, passed[0], u, names + NamesOf(rest));
      assert names + NamesOf(rest) + {Push(p.sym, p.isArray)} == names + (NamesOf(rest) + {Push(p.sym, p.isArray)});
  }

  lemma {:induction false} RestoreAutos(s: Scope, autos: Params, u: Scope, names: set<Push>)
    requires Restores(PushAutos(s, autos), u, names)
    ensures Restores(s, u, names + NamesOf(autos))
    decreases autos
  {
    hide Restores, PushOne;
    match autos
    case NoParams =>
      assert names + {} == names;
    case MoreParams(p, rest) =>
      var x := if p.isArray then PassedArray([]) else PassedValue(Zero());
      RestoreAutos(PushOne(s, p, x), rest, u, names);
      RestoreOne(s, p, x, u, names + NamesOf(rest));
      assert names + NamesOf(rest) + {Push(p.sym, p.isArray)} == names + (NamesOf(rest) + {Push(p.sym, p.isArray)});
  }

  /** Nothing to unwind. */
  lemma {:induction false} RestoresItself(s: Scope, u: Scope)
    requires Like(s, u) && u.pushed == s.pushed
    ensures Restores(s, u, {})
  {
    hide Like;
  }

  lemma {:induction false} RestoresNothing(s: Scope, u: Scope, names: set<Push>)
    requires Restores(s, u, names)
    ensures Restores(s, u, {})
  {
    hide Like, UnwindTo;
  }

  lemma {:induction false} RestoresFrom(s: Scope, t: Scope, u: Scope)
    requires Like(s, t) && t.pushed == s.pushed && Restores(t, u, {})
    ensures Restores(s, u, {})
  {
    LikeTransitive(s, t, UnwindTo(u, |t.pushed|));
    hide Like, UnwindTo;
  }

  // ---- any program ----

  /** What came of it can be unwound to where it began; if there was no error, there is nothing to
      unwind. */
  ghost predicate Kept(s: Scope, u: Scope, ok: bool)
  {
    Restores(s, u, {}) && (ok ==> Like(s, u) && u.pushed == s.pushed)
  }

  lemma {:induction false} KeptItself(s: Scope, u: Scope, ok: bool)
    requires Like(s, u) && u.pushed == s.pushed
    ensures Kept(s, u, ok)
  {
    RestoresItself(s, u);
  }

  lemma {:induction false} LikeItself(s: Scope)
    ensures Like(s, s)
  {
  }

  lemma {:induction false} KeptThen(s: Scope, t: Scope, u: Scope, ok: bool)
    requires Kept(s, t, true) && Kept(t, u, ok)
    ensures Kept(s, u, ok)
  {
    hide Like, Restores;
    RestoresFrom(s, t, u);
    if ok {
      LikeTransitive(s, t, u);
    }
  }

  lemma {:induction false} ExecKeeps(s: Scope, acts: Acts)
    ensures Kept(s, Exec(s, acts).0, Exec(s, acts).1)
    decreases acts
  {
    hide Kept, Do;
    match acts
    case Done =>
      LikeItself(s);
      KeptItself(s, s, true);
    case Then(act, rest) =>
      DoKeeps(s, act);
      var (t, ok) := Do(s, act);
      if ok {
        ExecKeeps(t, rest);
        KeptThen(s, t, Exec(t, rest).0, Exec(t, rest).1);
      }
  }

  lemma {:induction false} DoKeeps(s: Scope, act: Act)
    ensures Kept(s, Do(s, act).0, Do(s, act).1)
    decreases act, 1
  {
    hide Kept, Exec, Evaluate, Like, SetVal, SetArr, TouchVal, TouchArr, UnwindTo;
    match act
    case Use(x) =>
      TouchLike(s, x);
      KeptItself(s, TouchVal(s, x), true);
    case UseElement(x, i) =>
      TouchLike(s, x);
      KeptItself(s, TouchArr(s, x), 0 <= i < DIM_MAX);
    case Assign(x, v) =>
      SetValLike(s, x, v);
      SetValPushed(s, x, v);
      KeptItself(s, SetVal(s, x, v), true);
    case AssignElement(x, i, v) =>
      TouchLike(s, x);
      KeptItself(s, TouchArr(s, x), false);
      if 0 <= i < DIM_MAX {
        var a := WithElement(Last(Arrs(s, x)), i, v);
        SetArrLike(s, x, a);
        SetArrPushed(s, x, a);
        KeptItself(s, SetArr(s, x, a), true);
      }
    case Call(_, _, _, _) =>
      CallKeeps(s, act);
    case Fail =>
      LikeItself(s);
      KeptItself(s, s, false);
  }

  lemma {:induction false} TouchLike(s: Scope, x: Sym)
    ensures Like(s, TouchVal(s, x)) && TouchVal(s, x).pushed == s.pushed
    ensures Like(s, TouchArr(s, x)) && TouchArr(s, x).pushed == s.pushed
  {
  }

  lemma {:induction false} SetValPushed(s: Scope, x: Sym, v: Num)
    ensures SetVal(s, x, v).pushed == s.pushed
  {
  }

  lemma {:induction false} SetArrPushed(s: Scope, x: Sym, a: Elements)
    ensures SetArr(s, x, a).pushed == s.pushed
  {
  }

  lemma {:induction false} EvaluateKeeps(s: Scope, args: Args, params: Params)
    ensures Kept(s, Evaluate(s, args, params).0, Evaluate(s, args, params).1)
    ensures Evaluate(s, args, params).1 ==> |Evaluate(s, args, params).2| == ParamCount(params)
    decreases args
  {
    hide Kept, Exec, Like, TouchArr;
    LikeItself(s);
    KeptItself(s, s, true);
    KeptItself(s, s, false);
    match args
    case NoArgs =>
    case MoreArgs(arg, rest) =>
      if !params.NoParams? && params.first.isArray == arg.WholeArray? {
        match arg
        case WholeArray(x) =>
          TouchLike(s, x);
          KeptItself(s, TouchArr(s, x), true);
          EvaluateKeeps(TouchArr(s, x), rest, params.rest);
          KeptThen(s, TouchArr(s, x), Evaluate(TouchArr(s, x), rest, params.rest).0, Evaluate(TouchArr(s, x), rest, params.rest).1);
        case Value(before, _) =>
          ExecKeeps(s, before);
          var (t, ok) := Exec(s, before);
          if ok {
            EvaluateKeeps(t, rest, params.rest);
            KeptThen(s, t, Evaluate(t, rest, params.rest).0, Evaluate(t, rest, params.rest).1);
          }
      }
  }

  /** After the arguments: whatever the body does, the pushes can be undone to where they began, and
      then parameters and autos have just what they had. */
  lemma {:induction false} BodyRestores(t: Scope, params: Params, passed: seq<Passed>, autos: Params, u: Scope)
    requires |passed| == ParamCount(params) && Restores(PushAutos(PushParams(t, params, passed), autos), u, {})
    ensures Restores(t, u, NamesOf(autos) + NamesOf(params)) && Restores(t, u, {})
  {
    hide Restores, PushAutos, PushParams;
    RestoreAutos(PushParams(t, params, passed), autos, u, {});
    assert {} + NamesOf(autos) == NamesOf(autos);
    RestoreParams(t, params, passed, u, NamesOf(autos));
    RestoresNothing(t, u, NamesOf(autos) + NamesOf(params));
  }

  lemma {:induction false} Unwound(t: Scope, u: Scope, names: set<Push>)
    requires Restores(t, u, names)
    ensures Kept(t, UnwindTo(u, |t.pushed|), true) && Exactly(t, UnwindTo(u, |t.pushed|), names)
  {
    hide Like, UnwindTo;
    KeptItself(t, UnwindTo(u, |t.pushed|), true);
  }

  lemma {:induction false} CallKeeps(s: Scope, act: Act)
    requires act.Call?
    ensures Kept(s, Do(s, act).0, Do(s, act).1)
    decreases act, 0
  {
    hide Kept, Exec, Evaluate, Like, Restores, PushAutos, PushParams, UnwindTo;
    LikeItself(s);
    KeptItself(s, s, false);
    var (t, ok, passed) := Evaluate(s, act.args, act.params);
    EvaluateKeeps(s, act.args, act.params);
    if ok {
      var u0 := PushAutos(PushParams(t, act.params, passed), act.autos);
      var (u, done) := Exec(u0, act.body);
      ExecKeeps(u0, act.body);
      KeptRestores(u0, u, done);
      BodyRestores(t, act.params, passed, act.autos, u);
      Unwound(t, u, {});
      NotDone(t, u);
      KeptThen(s, t, UnwindTo(u, |t.pushed|), true);
      KeptThen(s, t, u, false);
    }
  }

  lemma {:induction false} KeptRestores(s: Scope, u: Scope, ok: bool)
    requires Kept(s, u, ok)
    ensures Restores(s, u, {})
  {
  }

  lemma {:induction false} NotDone(t: Scope, u: Scope)
    requires Restores(t, u, {})
    ensures Kept(t, u, false)
  {
  }

  /** run_item: ended normally or by an error at any depth, every stack is as high as before, and the
      same below its end. */
  function RunItem(s: Scope, acts: Acts): Scope
  {
    var (u, ok) := Exec(s, acts);
    if ok then u else UnwindTo(u, |s.pushed|)
  }

  lemma {:induction false} RunItemKeeps(s: Scope, acts: Acts)
    ensures Like(s, RunItem(s, acts)) && RunItem(s, acts).pushed == s.pushed
  {
    hide Exec, Like, UnwindTo, Exactly;
    ExecKeeps(s, acts);
  }

  // ---- enough to undo ----

  /** Below what was pushed for a name there is a value, and an array. */
  ghost predicate Deep(s: Scope)
  {
    forall x :: multiset(s.pushed)[Push(x, false)] < |Vals(s, x)| && multiset(s.pushed)[Push(x, true)] < |Arrs(s, x)|
  }

  lemma {:induction false} LikeDeep(s: Scope, t: Scope)
    requires Like(s, t) && t.pushed == s.pushed && Deep(s)
    ensures Deep(t)
  {
    hide Vals, Arrs, ButLast;
    forall x
      ensures multiset(t.pushed)[Push(x, false)] < |Vals(t, x)| && multiset(t.pushed)[Push(x, true)] < |Arrs(t, x)|
    {
      assert SameBelow(Vals(s, x), Vals(t, x)) && SameBelow(Arrs(s, x), Arrs(t, x));
    }
  }

  lemma {:induction false} PushDeep(s: Scope, p: Param, x: Passed)
    requires Deep(s)
    ensures Deep(PushOne(s, p, x))
  {
    var t := PushOne(s, p, x);
    PushedMore(s, p, x);
    assert multiset(t.pushed) == multiset(s.pushed) + multiset{Push(p.sym, p.isArray)};
    forall y
      ensures multiset(t.pushed)[Push(y, false)] < |Vals(t, y)| && multiset(t.pushed)[Push(y, true)] < |Arrs(t, y)|
    {
      PushHeights(s, p, x, y);
    }
  }

  lemma {:induction false} PushHeights(s: Scope, p: Param, x: Passed, y: Sym)
    ensures |Vals(PushOne(s, p, x), y)| == |Vals(s, y)| + (if !p.isArray && y == p.sym then 1 else 0)
    ensures |Arrs(PushOne(s, p, x), y)| == |Arrs(s, y)| + (if p.isArray && y == p.sym then 1 else 0)
  {
  }

  lemma {:induction false} UndoDeep(s: Scope)
    requires Deep(s) && s.pushed != []
    ensures var p := Last(s.pushed); if p.isArray then |Arrs(s, p.sym)| > 1 else |Vals(s, p.sym)| > 1
    ensures Deep(Undo(s))
  {
    var p, t := Last(s.pushed), Undo(s);
    assert s.pushed == t.pushed + [p];
    assert multiset(s.pushed) == multiset(t.pushed) + multiset{p};
    assert multiset(s.pushed)[p] > 0;
    forall y
      ensures multiset(t.pushed)[Push(y, false)] < |Vals(t, y)| && multiset(t.pushed)[Push(y, true)] < |Arrs(t, y)|
    {
      UndoHeights(s, y);
    }
  }

  lemma {:induction false} UndoHeights(s: Scope, y: Sym)
    requires s.pushed != []
    ensures var p := Last(s.pushed);
      && |Vals(Undo(s), y)| == (if !p.isArray && y == p.sym && |Vals(s, y)| > 1 then |Vals(s, y)| - 1 else |Vals(s, y)|)
      && |Arrs(Undo(s), y)| == (if p.isArray && y == p.sym && |Arrs(s, y)| > 1 then |Arrs(s, y)| - 1 else |Arrs(s, y)|)
  {
  }

  lemma {:induction false} ParamsDeep(s: Scope, params: Params, passed: seq<Passed>)
    requires Deep(s)
    ensures Deep(PushParams(s, params, passed))
    decreases params
  {
    hide Deep, PushOne;
    if params.MoreParams? && passed != [] {
      PushDeep(s, params.first, passed[0]);
      ParamsDeep(PushOne(s, params.first, passed[0]), params.rest, passed[1..]);
    }
  }

  lemma {:induction false} AutosDeep(s: Scope, autos: Params)
    requires Deep(s)
    ensures Deep(PushAutos(s, autos))
    decreases autos
  {
    hide Deep, PushOne;
    if autos.MoreParams? {
      var x := if autos.first.isArray then PassedArray([]) else PassedValue(Zero());
      PushDeep(s, autos.first, x);
      AutosDeep(PushOne(s, autos.first, x), autos.rest);
    }
  }

  lemma {:induction false} UnwindDeep(s: Scope, mark: nat)
    requires Deep(s)
    ensures Deep(UnwindTo(s, mark))
    decreases |s.pushed|
  {
    hide Deep, Undo;
    if |s.pushed| > mark {
      UndoShorter(s);
      UndoDeep(s);
      UnwindDeep(Undo(s), mark);
    }
  }

  lemma {:induction false} ExecDeep(s: Scope, acts: Acts)
    requires Deep(s)
    ensures Deep(Exec(s, acts).0)
    decreases acts
  {
    hide Deep, Do;
    if acts.Then? {
      DoDeep(s, acts.act);
      if Do(s, acts.act).1 {
        ExecDeep(Do(s, acts.act).0, acts.rest);
      }
    }
  }

  lemma {:induction false} DoDeep(s: Scope, act: Act)
    requires Deep(s)
    ensures Deep(Do(s, act).0)
    decreases act
  {
    if act.Call? {
      hide Deep, Exec, Evaluate, PushParams, PushAutos, UnwindTo;
      EvaluateDeep(s, act.args, act.params);
      var (t, ok, passed) := Evaluate(s, act.args, act.params);
      ParamsDeep(t, act.params, passed);
      AutosDeep(PushParams(t, act.params, passed), act.autos);
      var u0 := PushAutos(PushParams(t, act.params, passed), act.autos);
      ExecDeep(u0, act.body);
      UnwindDeep(Exec(u0, act.body).0, |t.pushed|);
    } else {
      hide Deep, Like;
      PlainLike(s, act);
      LikeDeep(s, Do(s, act).0);
    }
  }

  lemma {:induction false} PlainLike(s: Scope, act: Act)
    requires !act.Call?
    ensures Like(s, Do(s, act).0) && Do(s, act).0.pushed == s.pushed
  {
    hide Like, SetVal, SetArr, TouchVal, TouchArr;
    LikeItself(s);
    match act
    case Use(x) => TouchLike(s, x);
    case UseElement(x, _) => TouchLike(s, x);
    case Assign(x, v) =>
      SetValLike(s, x, v);
      SetValPushed(s, x, v);
    case AssignElement(x, i, v) =>
      TouchLike(s, x);
      if 0 <= i < DIM_MAX {
        var a := WithElement(Last(Arrs(s, x)), i, v);
        SetArrLike(s, x, a);
        SetArrPushed(s, x, a);
      }
    case Fail =>
  }

  lemma {:induction false} EvaluateDeep(s: Scope, args: Args, params: Params)
    requires Deep(s)
    ensures Deep(Evaluate(s, args, params).0)
    decreases args
  {
    hide Deep, Exec, Like, TouchArr;
    if args.MoreArgs? && !params.NoParams? && params.first.isArray == args.arg.WholeArray? {
      if args.arg.WholeArray? {
        TouchLike(s, args.arg.sym);
        LikeDeep(s, TouchArr(s, args.arg.sym));
        EvaluateDeep(TouchArr(s, args.arg.sym), args.rest, params.rest);
      } else {
        ExecDeep(s, args.arg.before);
        if Exec(s, args.arg.before).1 {
          EvaluateDeep(Exec(s, args.arg.before).0, args.rest, params.rest);
        }
      }
    }
  }
}
