/** bc/exec.c's symbols: value stacks, stacks of arrays on the heap, and the log of pushes, changed in
    place. */
module ScopeMachine {
  import opened Numbers
  import opened Scope

  class Arr {
    var v: Elements

    constructor (v: Elements)
      ensures this.v == v
    {
      this.v := v;
    }
  }

  /** What the arrays hold. */
  ghost function Contents(a: seq<Arr>): (c: seq<Elements>)
    reads a`v
    ensures |c| == |a| && forall i :: 0 <= i < |a| ==> c[i] == a[i].v
  {
    if a == [] then [] else Contents(a[..|a| - 1]) + [a[|a| - 1].v]
  }

  /** No array is in two places. */
  ghost predicate ArrsOk(arrs: map<Sym, seq<Arr>>, repr: set<Arr>)
  {
    && (forall x :: x in arrs ==> |arrs[x]| > 0)
    && (forall x, i :: x in arrs && 0 <= i < |arrs[x]| ==> arrs[x][i] in repr)
    && (forall x, i, j :: x in arrs && 0 <= i < j < |arrs[x]| ==> arrs[x][i] != arrs[x][j])
    && (forall x, y, i, j :: x in arrs && y in arrs && x != y && 0 <= i < |arrs[x]| && 0 <= j < |arrs[y]| ==> arrs[x][i] != arrs[y][j])
  }

  /** What all arrays hold. */
  ghost function ArrView(arrs: map<Sym, seq<Arr>>, repr: set<Arr>): map<Sym, seq<Elements>>
    requires ArrsOk(arrs, repr)
    reads repr`v
  {
    map x | x in arrs :: Contents(arrs[x])
  }

  class Machine {
    var vals: map<Sym, seq<Num>>
    var arrs: map<Sym, seq<Arr>>
    var pushed: seq<Push>
    ghost var repr: set<Arr>

    ghost predicate ValsOk()
      reads this`vals
    {
      forall x :: x in vals ==> |vals[x]| > 0
    }

    ghost predicate Valid()
      reads this`vals, this`arrs, this`repr
    {
      ValsOk() && ArrsOk(arrs, repr)
    }

    ghost function View(): Scope
      reads this`vals, this`arrs, this`pushed, this`repr, repr`v
      requires Valid()
    {
      Scope(vals, ArrView(arrs, repr), pushed)
    }

    constructor ()
      ensures Valid() && fresh(repr) && View() == Scope(map[], map[], [])
    {
      vals, arrs, pushed, repr := map[], map[], [], {};
    }

    /** var_slot */
    method VarSlot(x: Sym)
      requires Valid()
      modifies this`vals
      ensures Valid() && View() == TouchVal(old(View()), x) && x in vals
    {
      hide ArrsOk, ArrView;
      if !(x in vals && |vals[x]| > 0) {
        vals := vals[x := [Zero()]];
      }
      assert vals == old(vals)[x := vals[x]];
    }

    /** store, for a name */
    method StoreVar(x: Sym, v: Num)
      requires Valid()
      modifies this`vals
      ensures Valid() && View() == SetVal(old(View()), x, v)
    {
      hide ArrsOk, ArrView, TouchVal, SetVal;
      SetTouchedVal(View(), x, v);
      VarSlot(x);
      SetIs(View(), x, v);
      var s := vals[x];
      vals := vals[x := s[|s| - 1 := v]];
    }

    /** load, for a name */
    method LoadVar(x: Sym) returns (v: Num)
      requires Valid()
      modifies this`vals
      ensures Valid() && View() == TouchVal(old(View()), x) && v == Last(Vals(old(View()), x))
    {
      hide ArrsOk, ArrView;
      VarSlot(x);
      v := vals[x][|vals[x]| - 1];
    }

    /** push_var and note_push */
    method PushVar(x: Sym, v: Num)
      requires Valid()
      modifies this`vals, this`pushed
      ensures Valid() && View() == PushVal(old(View()), x, v)
    {
      hide ArrsOk, ArrView, TouchVal, PushVal;
      PushTouchedVal(View(), x, v);
      VarSlot(x);
      PushIs(View(), x, v);
      vals := vals[x := vals[x] + [v]];
      pushed := pushed + [Push(x, false)];
    }

    /** arr_cur: the current array of a name. */
    method ArrCur(x: Sym) returns (a: Arr)
      requires Valid()
      modifies this`arrs, this`repr
      ensures Valid() && View() == TouchArr(old(View()), x)
      ensures x in arrs && |arrs[x]| > 0 && a == arrs[x][|arrs[x]| - 1] && a.v == Last(Arrs(old(View()), x))
      ensures repr == old(repr) || (fresh(a) && repr == old(repr) + {a})
    {
      hide ArrsOk, ArrView, TouchArr, Arrs;
      KnownOrNot(arrs, repr, x);
      if !(x in arrs && |arrs[x]| > 0) {
        a := new Arr([]);
        FirstArray(arrs, repr, x, a);
        FirstTouch(View(), x);
        arrs := arrs[x := [a]];
        repr := repr + {a};
      } else {
        KnownTouch(View(), x);
        a := arrs[x][|arrs[x]| - 1];
      }
    }

    /** elem_slot: an array is made longer, with zeros, by doubling. */
    method Grow(a: Arr, i: nat)
      requires i < DIM_MAX
      modifies a
      ensures a.v == Extended(old(a.v), i)
    {
      RoomEnough(|a.v|, i);
      if i >= |a.v| {
        var n := if |a.v| > 0 then |a.v| else 16;
        ghost var n0 := n;
        while n <= i
          invariant n > 0 && Grown(n, i) == Grown(n0, i)
          decreases i + 1 - n
        {
          n := 2 * n;
        }
        if n > DIM_MAX {
          n := DIM_MAX;
        }
        a.v := a.v + seq(n - |a.v|, _ => Zero());
      }
    }

    /** store, for an element. */
    method StoreElement(x: Sym, i: int, v: Num) returns (ok: bool)
      requires Valid()
      modifies this`arrs, this`repr, repr
      ensures Valid() && fresh(repr - old(repr)) && repr >= old(repr)
      ensures View() == Do(old(View()), AssignElement(x, i, v)).0 && ok == Do(old(View()), AssignElement(x, i, v)).1
    {
      hide ArrsOk, ArrView, TouchArr, Arrs, SetArr, WithElement, Room, Grown;
      ghost var s := View();
      var a := ArrCur(x);
      if i < 0 || i >= DIM_MAX {
        return false;
      }
      ghost var before := ArrView(arrs, repr);
      SetTouched(s, x, WithElement(a.v, i, v));
      SetElement(a, x, i, v);
      ok := true;
    }

    method SetElement(a: Arr, ghost x: Sym, i: nat, v: Num)
      requires Valid() && x in arrs && |arrs[x]| > 0 && a == arrs[x][|arrs[x]| - 1] && i < DIM_MAX
      modifies repr
      ensures Valid() && View() == SetArr(old(View()), x, WithElement(old(a.v), i, v))
    {
      hide ArrsOk, ArrView, Extended;
      KnownOrNot(arrs, repr, x);
      ViewAt(arrs, repr);
      ghost var before := ArrView(arrs, repr);
      Grow(a, i);
      a.v := a.v[i := v];
      LastChanged(arrs, repr, x, before, a);
    }

    /** load, for an element. */
    method LoadElement(x: Sym, i: int) returns (v: Num, ok: bool)
      requires Valid()
      modifies this`arrs, this`repr
      ensures Valid() && fresh(repr - old(repr)) && repr >= old(repr)
      ensures View() == TouchArr(old(View()), x) && ok == (0 <= i < DIM_MAX)
      ensures ok ==> v == var a := Last(Arrs(old(View()), x)); if i < |a| then a[i] else Zero()
    {
      hide ArrsOk, ArrView, TouchArr, Arrs;
      var a := ArrCur(x);
      ok := 0 <= i < DIM_MAX;
      v := if ok && i < |a.v| then a.v[i] else Zero();
    }

    /** copy_array: an array of its own. */
    static method CopyArray(a: Arr) returns (c: Arr)
      ensures fresh(c) && c.v == a.v
    {
      var v := [];
      for i := 0 to |a.v|
        invariant v == a.v[..i]
      {
        v := v + [a.v[i]];
      }
      c := new Arr(v);
    }

    /** push_arr and note_push */
    method PushArray(x: Sym, a: Arr)
      requires Valid() && a !in repr
      modifies this`arrs, this`repr, this`pushed
      ensures Valid() && View() == PushArr(old(View()), x, a.v) && fresh(repr - old(repr) - {a}) && repr >= old(repr) + {a}
    {
      hide ArrsOk, ArrView, TouchArr, Arrs;
      ghost var s := View();
      var first := ArrCur(x);
      MoreArrays(arrs, repr, x, a);
      PushTouched(s, x, a.v);
      KnownOrNot(arrs, repr, x);
      KnownTouch(View(), x);
      arrs := arrs[x := arrs[x] + [a]];
      repr := repr + {a};
      pushed := pushed + [Push(x, true)];
    }

    /** pop_var or pop_arr: the last push is undone. */
    method Pop()
      requires Valid() && Deep(View()) && pushed != []
      modifies this`vals, this`arrs, this`pushed
      ensures Valid() && View() == Undo(old(View()))
    {
      hide ArrsOk, ArrView, Deep, Undo, Vals, Arrs;
      UndoDeep(View());
      var p := pushed[|pushed| - 1];
      HasPushed(View(), p);
      if p.isArray {
        UndoneArray(View());
      } else {
        UndoneValue(View());
      }
      pushed := pushed[..|pushed| - 1];
      if p.isArray {
        KnownOrNot(arrs, repr, p.sym);
        FewerArrays(arrs, repr, p.sym);
        arrs := arrs[p.sym := arrs[p.sym][..|arrs[p.sym]| - 1]];
      } else {
        vals := vals[p.sym := vals[p.sym][..|vals[p.sym]| - 1]];
      }
    }

    /** unwind_to */
    method Unwind(mark: nat)
      requires Valid() && Deep(View())
      modifies this`vals, this`arrs, this`pushed
      ensures Valid() && View() == UnwindTo(old(View()), mark)
    {
      hide ArrsOk, ArrView, Deep, Undo;
      while |pushed| > mark
        invariant Valid() && Deep(View()) && UnwindTo(View(), mark) == UnwindTo(old(View()), mark)
        decreases |pushed|
      {
        UndoDeep(View());
        UndoShorter(View());
        Pop();
      }
    }
  }

  lemma {:induction false} HasPushed(s: Scope, p: Push)
    requires if p.isArray then |Arrs(s, p.sym)| > 1 else |Vals(s, p.sym)| > 1
    ensures if p.isArray then p.sym in s.arrs && |s.arrs[p.sym]| > 1 else p.sym in s.vals && |s.vals[p.sym]| > 1
  {
  }

  lemma {:induction false} UndoneArray(s: Scope)
    requires s.pushed != [] && Last(s.pushed).isArray && Last(s.pushed).sym in s.arrs && |s.arrs[Last(s.pushed).sym]| > 1
    ensures var x := Last(s.pushed).sym;
      Undo(s) == s.(arrs := s.arrs[x := ButLast(s.arrs[x])], pushed := s.pushed[..|s.pushed| - 1])
  {
  }

  lemma {:induction false} UndoneValue(s: Scope)
    requires s.pushed != [] && !Last(s.pushed).isArray && Last(s.pushed).sym in s.vals && |s.vals[Last(s.pushed).sym]| > 1
    ensures var x := Last(s.pushed).sym;
      Undo(s) == s.(vals := s.vals[x := ButLast(s.vals[x])], pushed := s.pushed[..|s.pushed| - 1])
  {
  }

  /** One array less on the stack of a name. */
  lemma {:induction false} FewerArrays(arrs: map<Sym, seq<Arr>>, repr: set<Arr>, x: Sym)
    requires ArrsOk(arrs, repr) && x in arrs && |arrs[x]| > 1
    ensures ArrsOk(arrs[x := arrs[x][..|arrs[x]| - 1]], repr)
    ensures ArrView(arrs[x := arrs[x][..|arrs[x]| - 1]], repr) == ArrView(arrs, repr)[x := ButLast(ArrView(arrs, repr)[x])]
  {
    hide Contents;
    var fewer := arrs[x := arrs[x][..|arrs[x]| - 1]];
    assert Contents(fewer[x]) == ButLast(Contents(arrs[x]));
  }

  /** One array more on the stack of a name. */
  lemma {:induction false} MoreArrays(arrs: map<Sym, seq<Arr>>, repr: set<Arr>, x: Sym, a: Arr)
    requires ArrsOk(arrs, repr) && x in arrs && a !in repr
    ensures ArrsOk(arrs[x := arrs[x] + [a]], repr + {a})
    ensures ArrView(arrs[x := arrs[x] + [a]], repr + {a}) == ArrView(arrs, repr)[x := ArrView(arrs, repr)[x] + [a.v]]
  {
    assert (arrs[x] + [a])[..|arrs[x]|] == arrs[x];
  }

  lemma {:induction false} PushTouchedVal(s: Scope, x: Sym, v: Num)
    ensures PushVal(TouchVal(s, x), x, v) == PushVal(s, x, v)
  {
  }

  lemma {:induction false} PushIs(s: Scope, x: Sym, v: Num)
    requires x in s.vals && |s.vals[x]| > 0
    ensures PushVal(s, x, v) == s.(vals := s.vals[x := s.vals[x] + [v]], pushed := s.pushed + [Push(x, false)])
  {
  }

  lemma {:induction false} SetTouchedVal(s: Scope, x: Sym, v: Num)
    ensures SetVal(TouchVal(s, x), x, v) == SetVal(s, x, v)
  {
  }

  lemma {:induction false} SetIs(s: Scope, x: Sym, v: Num)
    requires x in s.vals && |s.vals[x]| > 0
    ensures SetVal(s, x, v) == s.(vals := s.vals[x := s.vals[x][|s.vals[x]| - 1 := v]])
  {
    var w := s.vals[x];
    assert w[|w| - 1 := v] == ButLast(w) + [v];
  }

  lemma {:induction false} PushTouched(s: Scope, x: Sym, a: Elements)
    ensures PushArr(TouchArr(s, x), x, a) == PushArr(s, x, a)
  {
  }

  lemma {:induction false} ViewAt(arrs: map<Sym, seq<Arr>>, repr: set<Arr>)
    requires ArrsOk(arrs, repr)
    ensures ArrView(arrs, repr).Keys == arrs.Keys
    ensures forall y :: y in arrs ==> |ArrView(arrs, repr)[y]| == |arrs[y]|
    ensures forall y, i :: y in arrs && 0 <= i < |arrs[y]| ==> ArrView(arrs, repr)[y][i] == arrs[y][i].v
  {
    hide Contents;
  }

  lemma {:induction false} SetTouched(s: Scope, x: Sym, a: Elements)
    ensures SetArr(TouchArr(s, x), x, a) == SetArr(s, x, a)
  {
  }

  /** The current array of a name has changed, and no other. */
  lemma {:induction false} LastChanged(arrs: map<Sym, seq<Arr>>, repr: set<Arr>, x: Sym, before: map<Sym, seq<Elements>>, a: Arr)
    requires ArrsOk(arrs, repr) && x in arrs && |arrs[x]| > 0 && a == arrs[x][|arrs[x]| - 1]
    requires before.Keys == arrs.Keys && forall y :: y in arrs ==> |before[y]| == |arrs[y]|
    requires forall y, i :: y in arrs && 0 <= i < |arrs[y]| && arrs[y][i] != a ==> before[y][i] == arrs[y][i].v
    ensures ArrView(arrs, repr) == before[x := ButLast(before[x]) + [a.v]]
  {
    hide Contents;
    var after, w := ArrView(arrs, repr), before[x := ButLast(before[x]) + [a.v]];
    forall y | y in arrs
      ensures after[y] == w[y]
    {
      forall i | 0 <= i < |arrs[y]|
        ensures after[y][i] == w[y][i]
      {
      }
    }
  }

  lemma {:induction false} KnownOrNot(arrs: map<Sym, seq<Arr>>, repr: set<Arr>, x: Sym)
    requires ArrsOk(arrs, repr)
    ensures x in ArrView(arrs, repr) <==> x in arrs
    ensures x in arrs ==> |arrs[x]| > 0 && |ArrView(arrs, repr)[x]| == |arrs[x]| && arrs[x][|arrs[x]| - 1] in repr
    ensures x in arrs ==> ArrView(arrs, repr)[x][|arrs[x]| - 1] == arrs[x][|arrs[x]| - 1].v
  {
    hide Contents;
  }

  lemma {:induction false} FirstTouch(s: Scope, x: Sym)
    requires x !in s.arrs
    ensures TouchArr(s, x) == s.(arrs := s.arrs[x := [[]]]) && Last(Arrs(s, x)) == []
  {
  }

  lemma {:induction false} KnownTouch(s: Scope, x: Sym)
    requires x in s.arrs && |s.arrs[x]| > 0
    ensures TouchArr(s, x) == s && Arrs(s, x) == s.arrs[x]
  {
    assert s.arrs[x := s.arrs[x]] == s.arrs;
  }

  lemma {:induction false} FirstArray(arrs: map<Sym, seq<Arr>>, repr: set<Arr>, x: Sym, a: Arr)
    requires ArrsOk(arrs, repr) && x !in arrs && a !in repr
    ensures ArrsOk(arrs[x := [a]], repr + {a})
    ensures ArrView(arrs[x := [a]], repr + {a}) == ArrView(arrs, repr)[x := [a.v]]
  {
    FirstOk(arrs, repr, x, a);
    hide ArrsOk, Contents;
    ContentsOne(a);
  }

  lemma {:induction false} ContentsOne(a: Arr)
    ensures Contents([a]) == [a.v]
  {
  }

  lemma {:induction false} FirstOk(arrs: map<Sym, seq<Arr>>, repr: set<Arr>, x: Sym, a: Arr)
    requires ArrsOk(arrs, repr) && x !in arrs && a !in repr
    ensures ArrsOk(arrs[x := [a]], repr + {a})
  {
  }
}
