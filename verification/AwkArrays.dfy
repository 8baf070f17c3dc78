/** For every program: awk's array is a finite map with the order in which its keys were made. */
module AwkArrays {
  import opened AwkEager
  import opened AwkTable

  // ---- the array as a program sees it ----

  type Pair = (string, Value)

  /** Where a key is; the length when there is none. */
  function IndexOf(p: seq<Pair>, key: string): (i: nat)
    ensures i <= |p| && (i < |p| ==> p[i].0 == key) && forall j :: 0 <= j < i ==> p[j].0 != key
  {
    if p == [] || p[0].0 == key then 0 else 1 + IndexOf(p[1..], key)
  }

  datatype Op = Lookup(key: string) | Want(key: string) | Put(key: string, v: Value) | Remove(key: string) | Erase | List

  datatype Answer = Quiet | Missing | Found(value: Value) | Listed(keys: seq<string>)

  /** A key with no value yet is put after all others. */
  function Made(p: seq<Pair>, key: string): (q: seq<Pair>)
    ensures IndexOf(p, key) < |q| && (IndexOf(p, key) < |p| ==> q == p)
  {
    if IndexOf(p, key) < |p| then p else p + [(key, Uninit)]
  }

  function Step(p: seq<Pair>, op: Op): (seq<Pair>, Answer)
  {
    match op
    case Lookup(key) => (p, if IndexOf(p, key) < |p| then Found(p[IndexOf(p, key)].1) else Missing)
    case Want(key) => (Made(p, key), Found(Made(p, key)[IndexOf(p, key)].1))
    case Put(key, v) => (Made(p, key)[IndexOf(p, key) := (key, v)], Quiet)
    case Remove(key) => (if IndexOf(p, key) < |p| then Without(p, IndexOf(p, key)) else p, Quiet)
    case Erase => ([], Quiet)
    case List => (p, Listed(KeysOf(p)))
  }

  function Answers(p: seq<Pair>, ops: seq<Op>): seq<Answer>
    decreases |ops|
  {
    if ops == [] then [] else
      var (next, out) := Step(p, ops[0]);
      [out] + Answers(next, ops[1..])
  }

  // ---- as a map ----

  ghost predicate UniqueKeys(p: seq<Pair>)
  {
    forall i, j :: 0 <= i < j < |p| ==> p[i].0 != p[j].0
  }

  ghost function MapOf(p: seq<Pair>): map<string, Value>
  {
    if p == [] then map[] else MapOf(p[..|p| - 1])[p[|p| - 1].0 := p[|p| - 1].1]
  }

  lemma {:induction false} MapHas(p: seq<Pair>, key: string)
    requires UniqueKeys(p)
    ensures key in MapOf(p) <==> IndexOf(p, key) < |p|
    ensures IndexOf(p, key) < |p| ==> MapOf(p)[key] == p[IndexOf(p, key)].1
  {
    if p != [] {
      var q := p[..|p| - 1];
      MapHas(q, key);
      if IndexOf(q, key) < |q| {
        assert p[IndexOf(q, key)].0 == key;
      }
    }
  }

  /** What an operation does to the map. */
  ghost function MapStep(m: map<string, Value>, op: Op): map<string, Value>
  {
    match op
    case Lookup(_) => m
    case Want(key) => if key in m then m else m[key := Uninit]
    case Put(key, v) => m[key := v]
    case Remove(key) => m - {key}
    case Erase => map[]
    case List => m
  }

  /** The map keeps step, and keys stay distinct. */
  lemma {:induction false} MapKeepsStep(p: seq<Pair>, op: Op)
    requires UniqueKeys(p)
    ensures UniqueKeys(Step(p, op).0) && MapOf(Step(p, op).0) == MapStep(MapOf(p), op)
  {
    hide Step, MapOf, MapStep, UniqueKeys;
    var q := Step(p, op).0;
    StepUnique(p, op);
    var m, n := MapOf(q), MapStep(MapOf(p), op);
    forall key
      ensures key in m <==> key in n
      ensures key in m ==> m[key] == n[key]
    {
      MapKeyKeepsStep(p, op, key);
    }
    assert m == n;
  }

  lemma {:induction false} MapKeyKeepsStep(p: seq<Pair>, op: Op, key: string)
    requires UniqueKeys(p)
    ensures key in MapOf(Step(p, op).0) <==> key in MapStep(MapOf(p), op)
    ensures key in MapStep(MapOf(p), op) ==> MapOf(Step(p, op).0)[key] == MapStep(MapOf(p), op)[key]
  {
    hide Step, MapOf, UniqueKeys, IndexOf;
    StepUnique(p, op);
    StepAt(p, op, key);
    MapHas(p, key);
    MapHas(Step(p, op).0, key);
    MapOfNone(p);
    if op.Want? || op.Put? || op.Remove? {
      MapHas(p, op.key);
    }
  }

  lemma {:induction false} MapOfNone(p: seq<Pair>)
    ensures p == [] ==> MapOf(p) == map[]
  {
  }

  lemma {:induction false} StepUnique(p: seq<Pair>, op: Op)
    requires UniqueKeys(p)
    ensures UniqueKeys(Step(p, op).0)
  {
  }

  lemma {:induction false} IndexIs(p: seq<Pair>, key: string, i: nat)
    requires UniqueKeys(p) && i < |p| && p[i].0 == key
    ensures IndexOf(p, key) == i
  {
  }

  lemma {:induction false} IndexNone(p: seq<Pair>, key: string)
    requires forall i :: 0 <= i < |p| ==> p[i].0 != key
    ensures IndexOf(p, key) == |p|
  {
  }

  /** Where a key is afterwards, and with what value. */
  lemma {:induction false} StepAt(p: seq<Pair>, op: Op, key: string)
    requires UniqueKeys(p)
    ensures
      var q := Step(p, op).0;
      var i, j := IndexOf(p, key), IndexOf(q, key);
      match op
      case Lookup(_) => q == p
      case List => q == p
      case Erase => j == |q|
      case Want(k) => if i < |p| then j < |q| && q[j].1 == p[i].1 else if key == k then j < |q| && q[j].1 == Uninit else j == |q|
      case Put(k, v) => if key == k then j < |q| && q[j].1 == v else if i < |p| then j < |q| && q[j].1 == p[i].1 else j == |q|
      case Remove(k) => if key == k then j == |q| else if i < |p| then j < |q| && q[j].1 == p[i].1 else j == |q|
  {
    hide UniqueKeys;
    var q := Step(p, op).0;
    var i := IndexOf(p, key);
    StepUnique(p, op);
    if op.Remove? && IndexOf(p, op.key) < |p| {
      WithoutAt(p, IndexOf(p, op.key), key);
    } else if (op.Want? || op.Put?) && (i < |p| || key == op.key) {
      IndexIs(q, key, i);
    } else if op.Want? || op.Put? {
      IndexNone(q, key);
    }
  }

  lemma {:induction false} WithoutAt(p: seq<Pair>, r: nat, key: string)
    requires UniqueKeys(p) && r < |p| && UniqueKeys(Without(p, r))
    ensures
      var q := Without(p, r);
      var i, j := IndexOf(p, key), IndexOf(q, key);
      if key == p[r].0 then j == |q| else if i < |p| then j < |q| && q[j].1 == p[i].1 else j == |q|
  {
    var q, i := Without(p, r), IndexOf(p, key);
    if key != p[r].0 && i < |p| {
      IndexIs(q, key, if i < r then i else i - 1);
    } else {
      IndexNone(q, key);
    }
  }

  // ---- the table is such an array ----

  /** These pairs are those of the elements. */
  ghost predicate Keyed(p: seq<Pair>, s: seq<Elem>)
  {
    |p| == |s| && forall i :: 0 <= i < |s| ==> p[i].0 == s[i].key
  }

  lemma {:induction false} PairsKeyed(a: Array)
    requires a.Valid()
    ensures Keyed(a.Pairs(), a.list) && KeysDistinct(a.list)
  {
    hide PairsOf;
  }

  lemma {:induction false} IndexAbsent(p: seq<Pair>, s: seq<Elem>, key: string)
    requires Keyed(p, s) && KeyAbsent(s, 0, |s|, key)
    ensures IndexOf(p, key) == |p|
  {
    IndexNone(p, key);
  }

  lemma {:induction false} IndexAt(p: seq<Pair>, s: seq<Elem>, key: string, k: nat)
    requires Keyed(p, s) && KeysDistinct(s) && k < |s| && s[k].key == key
    ensures IndexOf(p, key) == k
  {
    IndexIs(p, key, k);
  }

  /** The element of a key stands where the key does. */
  lemma {:induction false} PlaceOf(p: seq<Pair>, l: seq<Elem>, s: seq<Elem>, e: Elem, key: string)
    requires Keyed(p, l) && KeysDistinct(s) && e in s && e.key == key
    requires s == l || (s == l + [e] && KeyAbsent(l, 0, |l|, key))
    ensures IndexOf(p, key) < |s| && e == s[IndexOf(p, key)]
  {
    if s == l {
      var k :| 0 <= k < |s| && s[k] == e;
      IndexAt(p, l, key, k);
    } else {
      IndexAbsent(p, l, key);
    }
  }

  /** The element of a key, made if there is none. */
  method Wanted(a: Array, key: string) returns (e: Elem, ghost k: nat)
    requires a.Valid()
    modifies a, a.tab, a.list
    ensures a.Valid() && (a.tab == old(a.tab) || fresh(a.tab)) && fresh(set x | x in a.list && x !in old(a.list))
    ensures k == IndexOf(old(a.Pairs()), key) < |a.list| && e == a.list[k] && e.key == key
    ensures a.Pairs() == Made(old(a.Pairs()), key)
  {
    hide PairsOf, Array.Valid, IndexOf, KeyAbsent, KeysDistinct, Keyed;
    ghost var l, p := a.list, a.Pairs();
    PairsKeyed(a);
    var got := a.Get(key, true);
    e := got;
    k := IndexOf(p, key);
    PairsKeyed(a);
    PlaceOf(p, l, a.list, e, key);
    if a.list == l {
      KeyThere(p, l, e, key);
    } else {
      IndexAbsent(p, l, key);
    }
  }

  lemma {:induction false} KeyThere(p: seq<Pair>, l: seq<Elem>, e: Elem, key: string)
    requires Keyed(p, l) && KeysDistinct(l) && e in l && e.key == key
    ensures IndexOf(p, key) < |p|
  {
    PlaceOf(p, l, l, e, key);
  }

  lemma {:induction false} PutPairs(was: seq<Pair>, s: seq<Elem>, k: nat, now: seq<Pair>, key: string, v: Value)
    requires Keyed(was, s) && Keyed(now, s) && k < |s| && s[k].key == key && now[k].1 == v
    requires forall i :: 0 <= i < |s| && i != k ==> now[i].1 == was[i].1
    ensures now == was[k := (key, v)]
  {
  }

  /** One operation of the table. */
  method Do(a: Array, op: Op) returns (out: Answer)
    requires a.Valid()
    modifies a, a.tab, a.list
    ensures a.Valid() && (a.tab == old(a.tab) || fresh(a.tab)) && fresh(set x | x in a.list && x !in old(a.list))
    ensures a.Pairs() == Step(old(a.Pairs()), op).0 && out == Step(old(a.Pairs()), op).1
  {
    hide PairsOf, Array.Valid, IndexOf, KeyAbsent, KeysDistinct;
    ghost var l, p := a.list, a.Pairs();
    PairsKeyed(a);
    out := Quiet;
    match op {
      case Lookup(key) =>
        var e, at := a.Find(key);
        if e == null {
          IndexAbsent(p, l, key);
          out := Missing;
        } else {
          IndexAt(p, l, key, at);
          out := Found(e.v);
        }
      case Want(key) =>
        var e, k := Wanted(a, key);
        out := Found(e.v);
      case Put(key, v) =>
        PutValue(a, key, v);
      case Remove(key) =>
        var k := a.Delete(key);
        if k == |l| {
          IndexAbsent(p, l, key);
        } else {
          IndexAt(p, l, key, k);
        }
      case Erase =>
        a.Clear();
      case List =>
        var keys := a.Keys();
        out := Listed(keys);
    }
  }

  method SetElement(e: Elem, v: Value, ghost s: seq<Elem>, ghost q: seq<Pair>, ghost k: nat)
    requires k < |s| && s[k] == e && Distinct(s) && q == PairsOf(s)
    modifies e`v
    ensures |PairsOf(s)| == |q| && PairsOf(s)[k].1 == v && forall i :: 0 <= i < |s| && i != k ==> PairsOf(s)[i].1 == q[i].1
  {
    hide PairsOf;
    e.v := v;
  }

  /** array_set_cstr, and the assignment to an element. */
  method PutValue(a: Array, key: string, v: Value)
    requires a.Valid()
    modifies a, a.tab, a.list
    ensures a.Valid() && (a.tab == old(a.tab) || fresh(a.tab)) && fresh(set x | x in a.list && x !in old(a.list))
    ensures a.Pairs() == Step(old(a.Pairs()), Op.Put(key, v)).0
  {
    hide PairsOf, IndexOf, KeyAbsent, KeysDistinct, Chained, Headed, Hashed, Threaded, IsSize;
    var e, k := Wanted(a, key);
    ghost var q := a.Pairs();
    PairsKeyed(a);
    KeysThenDistinct(a.list);
    SetElement(e, v, a.list, q, k);
    PairsKeyed(a);
    PutPairs(q, a.list, k, a.Pairs(), key, v);
  }

  lemma {:induction false} AnswersNext(p: seq<Pair>, ops: seq<Op>, i: nat, seen: seq<Answer>)
    requires i < |ops|
    ensures seen + Answers(p, ops[i..]) == (seen + [Step(p, ops[i]).1]) + Answers(Step(p, ops[i]).0, ops[i + 1..])
  {
    hide Step;
    assert ops[i..][1..] == ops[i + 1..] && ops[i..][0] == ops[i];
  }

  lemma {:induction false} AnswersEnd(p: seq<Pair>, ops: seq<Op>, i: nat, seen: seq<Answer>)
    requires i == |ops|
    ensures seen + Answers(p, ops[i..]) == seen
  {
  }

  /** Whatever a program does with an array, it is answered as by the map with its order. */
  method Run(a: Array, ops: seq<Op>) returns (seen: seq<Answer>)
    requires a.Valid()
    modifies a, a.tab, a.list
    ensures a.Valid() && seen == Answers(old(a.Pairs()), ops)
  {
    hide Step, Answers, PairsOf, Array.Valid;
    ghost var goal := Answers(a.Pairs(), ops);
    ghost var l := a.list;
    seen := [];
    assert ops[0..] == ops && seen + goal == goal;
    for i := 0 to |ops|
      invariant a.Valid() && (a.tab == old(a.tab) || fresh(a.tab)) && fresh(set x | x in a.list && x !in l)
      invariant seen + Answers(a.Pairs(), ops[i..]) == goal
    {
      AnswersNext(a.Pairs(), ops, i, seen);
      var out := Do(a, ops[i]);
      seen := seen + [out];
    }
    AnswersEnd(a.Pairs(), ops, |ops|, seen);
  }

  // ---- chains ----

  /** The elements of a chain, from its head on. */
  ghost function Chain(s: seq<Elem>, n: nat, size: nat, b: nat): seq<Elem>
    requires n <= |s| && size > 0
  {
    if n == 0 then [] else (if s[n - 1].hash % size == b then [s[n - 1]] else []) + Chain(s, n - 1, size, b)
  }

  /** A chain has the elements that fall to it, and each once. */
  lemma {:induction false} ChainHas(s: seq<Elem>, n: nat, size: nat, b: nat)
    requires n <= |s| && size > 0 && Distinct(s)
    ensures forall e :: e in Chain(s, n, size, b) <==> e in s[..n] && e.hash % size == b
    ensures Distinct(Chain(s, n, size, b))
  {
    if n > 0 {
      ChainHas(s, n - 1, size, b);
      assert s[..n] == s[..n - 1] + [s[n - 1]];
      NotBefore(s, n - 1);
    }
  }

  lemma {:induction false} NotBefore(s: seq<Elem>, n: nat)
    requires n < |s| && Distinct(s)
    ensures s[n] !in s[..n]
  {
  }

  /** It begins with the newest element. */
  lemma {:induction false} ChainBegins(s: seq<Elem>, n: nat, size: nat, b: nat)
    requires n <= |s| && size > 0
    ensures At(Chain(s, n, size, b), 0) == Newest(s, n, size, b)
  {
    if n > 0 && s[n - 1].hash % size != b {
      ChainBegins(s, n - 1, size, b);
    }
  }

  /** Followed through the table and the elements, the pointers give the chain. */
  lemma {:induction false} ChainFollows(s: seq<Elem>, n: nat, size: nat, b: nat, i: nat)
    requires n <= |s| && size > 0 && Distinct(s) && Chained(s, |s|, size) && i < |Chain(s, n, size, b)|
    ensures Chain(s, n, size, b)[i].hnext == At(Chain(s, n, size, b), i + 1)
  {
    hide Newest;
    ChainHas(s, n, size, b);
    if n > 0 {
      if s[n - 1].hash % size == b {
        if i == 0 {
          ChainBegins(s, n - 1, size, b);
        } else {
          ChainFollows(s, n - 1, size, b, i - 1);
        }
      } else {
        ChainFollows(s, n - 1, size, b, i);
      }
    }
  }

  /** In every state of a table, the head of each chain and the pointers from there on give just the
      elements whose masked hash is the number of the chain, each once. */
  lemma {:induction false} OneChain(a: Array, b: nat) returns (c: seq<Elem>)
    requires a.Valid() && b < a.tab.Length
    ensures Distinct(c) && forall e :: e in c <==> e in a.list && Slot(e.hash, a.tab.Length) == b
    ensures a.tab[b] == At(c, 0) && forall i :: 0 <= i < |c| ==> c[i].hnext == At(c, i + 1)
  {
    hide Newest, Chain, Threaded, Hashed;
    var size := a.tab.Length;
    c := Chain(a.list, |a.list|, size, b);
    KeysThenDistinct(a.list);
    ChainHas(a.list, |a.list|, size, b);
    assert a.list[..|a.list|] == a.list;
    ChainBegins(a.list, |a.list|, size, b);
    HeadIs(a.tab[..], a.list, |a.list|, b);
    assert a.tab[..][b] == a.tab[b];
    forall i | 0 <= i < |c|
      ensures c[i].hnext == At(c, i + 1)
    {
      ChainFollows(a.list, |a.list|, size, b, i);
    }
  }
}
