/** awk's arrays: a chained hash table whose elements are also threaded in the order of their creation. */
module AwkTable {
  import opened Arith
  import opened AwkEager

  class Elem {
    const key: string
    const hash: nat
    var v: Value
    var hnext: Elem?
    var next: Elem?
    var prev: Elem?

    constructor (key: string, hash: nat)
      ensures this.key == key && this.hash == hash && v == Uninit
    {
      this.key, this.hash, v, hnext, next, prev := key, hash, Uninit, null, null, null;
    }
  }

  // ---- which chain ----

  /** The bits that two numbers have in common. */
  function And(x: nat, y: nat): nat
  {
    if x == 0 || y == 0 then 0 else x % 2 * (y % 2) + 2 * And(x / 2, y / 2)
  }

  /** The sizes a table takes: sixteen, and four times as many each time it grows. */
  predicate IsSize(n: nat)
  {
    n == 16 || (n > 16 && n % 4 == 0 && IsSize(n / 4))
  }

  lemma {:induction false} SizePositive(n: nat)
    requires IsSize(n)
    ensures n >= 16
  {
  }

  predicate IsPowerOfTwo(n: nat)
  {
    n == 1 || (n > 1 && n % 2 == 0 && IsPowerOfTwo(n / 2))
  }

  lemma {:induction false} SizeIsPower(n: nat)
    requires IsSize(n)
    ensures IsPowerOfTwo(n)
  {
    if n == 16 {
      assert IsPowerOfTwo(1) && IsPowerOfTwo(2) && IsPowerOfTwo(4) && IsPowerOfTwo(8);
    } else {
      SizeIsPower(n / 4);
      assert n / 2 / 2 == n / 4;
      assert IsPowerOfTwo(n / 2);
    }
  }

  lemma {:induction false} AndIs(x: nat, y: nat)
    ensures And(x, y) == x % 2 * (y % 2) + 2 * And(x / 2, y / 2)
  {
  }

  lemma {:induction false} AndNothing(y: nat)
    ensures And(0, y) == 0 && And(y, 0) == 0
  {
  }

  /** Masking with one less than a power of two leaves the remainder. */
  lemma {:induction false} MaskIsRemainder(h: nat, size: nat)
    requires IsPowerOfTwo(size)
    ensures And(h, size - 1) == h % size
  {
    hide And;
    if size == 1 {
      AndNothing(h);
    } else {
      var half := size / 2;
      MaskIsRemainder(h / 2, half);
      assert (size - 1) % 2 == 1 && (size - 1) / 2 == half - 1;
      AndIs(h, size - 1);
      HalfRemainder(h, half);
    }
  }

  lemma {:induction false} HalfRemainder(h: nat, half: nat)
    requires half > 0
    ensures h % (2 * half) == h % 2 + 2 * (h / 2 % half)
  {
    var q, r := h / 2 / half, h / 2 % half;
    assert h / 2 == half * q + r;
    assert h == 2 * (half * q) + (2 * r + h % 2);
    assert 2 * (half * q) == 2 * half * q;
    DivUnique(h, 2 * half, q, 2 * r + h % 2);
  }

  /** The chain of a hash. */
  function Slot(h: nat, size: nat): (b: nat)
    requires IsSize(size)
    ensures b == h % size && b < size
  {
    SizeIsPower(size);
    MaskIsRemainder(h, size);
    And(h, size - 1)
  }

  // ---- chains ----

  /** The newest of the first n elements that fall to a chain: its head when there were no more. */
  ghost function Newest(s: seq<Elem>, n: nat, size: nat, b: nat): (e: Elem?)
    requires n <= |s| && size > 0
  {
    if n == 0 then null else if s[n - 1].hash % size == b then s[n - 1] else Newest(s, n - 1, size, b)
  }

  /** Where the newest element is; those after it fall to other chains. */
  lemma {:induction false} NewestAt(s: seq<Elem>, n: nat, size: nat, b: nat) returns (k: int)
    requires n <= |s| && size > 0
    ensures -1 <= k < n && (k == -1 <==> Newest(s, n, size, b) == null)
    ensures k >= 0 ==> Newest(s, n, size, b) == s[k] && s[k].hash % size == b
    ensures Skipped(s, k + 1, n, size, b)
  {
    if n == 0 {
      k := -1;
    } else if s[n - 1].hash % size == b {
      k := n - 1;
    } else {
      k := NewestAt(s, n - 1, size, b);
    }
  }

  /** None of these elements falls to the chain. */
  ghost predicate Skipped(s: seq<Elem>, i: nat, n: nat, size: nat, b: nat)
    requires n <= |s| && size > 0
  {
    forall j :: i <= j < n ==> s[j].hash % size != b
  }

  lemma {:induction false} NewestPrefix(s: seq<Elem>, t: seq<Elem>, n: nat, size: nat, b: nat)
    requires n <= |s| && n <= |t| && size > 0 && forall i :: 0 <= i < n ==> s[i] == t[i]
    ensures Newest(s, n, size, b) == Newest(t, n, size, b)
  {
    if n > 0 {
      NewestPrefix(s, t, n - 1, size, b);
    }
  }

  /** The first n elements are each chained to the one before it that falls to the same chain. */
  ghost predicate Chained(s: seq<Elem>, n: nat, size: nat)
    requires n <= |s| && size > 0
    reads s`hnext
  {
    forall i :: 0 <= i < n ==> s[i].hnext == Newest(s, i, size, s[i].hash % size)
  }

  ghost predicate Headed(tab: seq<Elem?>, s: seq<Elem>, n: nat)
    requires n <= |s| && |tab| > 0
  {
    forall b :: 0 <= b < |tab| ==> tab[b] == Newest(s, n, |tab|, b)
  }

  /** A step along a chain. */
  lemma {:induction false} Link(s: seq<Elem>, n: nat, size: nat, b: nat) returns (k: nat)
    requires n <= |s| && size > 0 && Chained(s, |s|, size) && Newest(s, n, size, b) != null
    ensures k < n && Newest(s, n, size, b) == s[k] && s[k].hash % size == b
    ensures s[k].hnext == Newest(s, k, size, b) && Skipped(s, k + 1, n, size, b)
  {
    var at := NewestAt(s, n, size, b);
    k := at;
  }

  lemma {:induction false} ChainEnd(s: seq<Elem>, n: nat, size: nat, b: nat)
    requires n <= |s| && size > 0 && Newest(s, n, size, b) == null
    ensures Skipped(s, 0, n, size, b)
  {
    var k := NewestAt(s, n, size, b);
  }

  lemma {:induction false} HeadIs(tab: seq<Elem?>, s: seq<Elem>, n: nat, b: nat)
    requires n <= |s| && b < |tab| && Headed(tab, s, n)
    ensures tab[b] == Newest(s, n, |tab|, b)
  {
  }

  lemma {:induction false} HeadedNext(tab: seq<Elem?>, s: seq<Elem>, n: nat, b: nat)
    requires n < |s| && |tab| > 0 && b == s[n].hash % |tab| && Headed(tab, s, n)
    ensures Headed(tab[b := s[n]], s, n + 1)
  {
  }

  // ---- the order of creation ----

  ghost function At(s: seq<Elem>, i: int): Elem?
  {
    if 0 <= i < |s| then s[i] else null
  }

  /** The elements are threaded through next and prev. */
  ghost predicate Threaded(first: Elem?, last: Elem?, s: seq<Elem>)
    reads s`next, s`prev
  {
    && first == At(s, 0) && last == At(s, |s| - 1)
    && forall i :: 0 <= i < |s| ==> s[i].next == At(s, i + 1) && s[i].prev == At(s, i - 1)
  }

  ghost function PairsOf(s: seq<Elem>): (p: seq<(string, Value)>)
    reads s`v
    ensures |p| == |s| && forall i :: 0 <= i < |s| ==> p[i] == (s[i].key, s[i].v)
  {
    if s == [] then [] else PairsOf(s[..|s| - 1]) + [(s[|s| - 1].key, s[|s| - 1].v)]
  }

  ghost predicate KeysDistinct(s: seq<Elem>)
  {
    forall i, j :: 0 <= i < j < |s| ==> s[i].key != s[j].key
  }

  ghost predicate Hashed(s: seq<Elem>, hashOf: string -> nat)
  {
    forall i :: 0 <= i < |s| ==> s[i].hash == hashOf(s[i].key)
  }

  /** None of these elements has the key. */
  ghost predicate KeyAbsent(s: seq<Elem>, i: nat, n: nat, key: string)
    requires n <= |s|
  {
    forall j :: i <= j < n ==> s[j].key != key
  }

  /** Elements that fall to other chains have other keys. */
  lemma {:induction false} KeysElsewhere(s: seq<Elem>, i: nat, n: nat, size: nat, key: string, hashOf: string -> nat)
    requires i <= n <= |s| && size > 0 && Hashed(s, hashOf) && Skipped(s, i, n, size, hashOf(key) % size)
    requires KeyAbsent(s, n, |s|, key)
    ensures KeyAbsent(s, i, |s|, key)
  {
  }

  lemma {:induction false} OtherKey(s: seq<Elem>, k: nat, key: string, hashOf: string -> nat)
    requires k < |s| && Hashed(s, hashOf) && KeyAbsent(s, k + 1, |s|, key)
    requires !(s[k].hash == hashOf(key) && s[k].key == key)
    ensures KeyAbsent(s, k, |s|, key)
  {
  }

  class Array {
    const hashOf: string -> nat
    var tab: array<Elem?>
    var count: nat
    var first: Elem?
    var last: Elem?
    ghost var list: seq<Elem>

    /** The table leads to all elements. */
    ghost predicate TableOk()
      reads this, tab, list`hnext
    {
      IsSize(tab.Length) && Chained(list, |list|, tab.Length) && Headed(tab[..], list, |list|)
    }

    ghost predicate Valid()
      reads this, tab, list
    {
      && count == |list| && count <= tab.Length && (tab.Length == 0 || TableOk())
      && KeysDistinct(list) && Hashed(list, hashOf) && Threaded(first, last, list)
    }

    /** The keys with their values, in the order of creation. */
    ghost function Pairs(): seq<(string, Value)>
      reads this`list, list`v
    {
      PairsOf(list)
    }

    /** array_new */
    constructor (hashOf: string -> nat)
      ensures Valid() && fresh(tab) && this.hashOf == hashOf && list == [] && Pairs() == []
    {
      this.hashOf := hashOf;
      tab := new Elem?[0];
      count, first, last := 0, null, null;
      list := [];
    }

    /** The search along a chain, from the newest element to the oldest. */
    method Find(key: string) returns (e: Elem?, ghost at: nat)
      requires Valid()
      ensures e == null ==> KeyAbsent(list, 0, |list|, key)
      ensures e != null ==> at < |list| && e == list[at] && e.key == key
    {
      hide Threaded, KeysDistinct, IsSize, Newest, Chained, Headed, Hashed, KeyAbsent, Skipped;
      at := 0;
      if tab.Length == 0 {
        NoKeys(list, key);
        return null, at;
      }
      var h := hashOf(key);
      var b := Slot(h, tab.Length);
      HeadIs(tab[..], list, |list|, b);
      assert tab[..][b] == tab[b];
      e := tab[b];
      ghost var n: nat := |list|;
      NoKeys(list, key);
      while e != null
        invariant n <= |list| && e == Newest(list, n, tab.Length, b) && KeyAbsent(list, n, |list|, key)
        decreases n
      {
        ghost var k := Link(list, n, tab.Length, b);
        KeysElsewhere(list, k + 1, n, tab.Length, key, hashOf);
        if e.hash == h && e.key == key {
          at := k;
          return;
        }
        OtherKey(list, k, key, hashOf);
        e := e.hnext;
        n := k;
      }
      ChainEnd(list, n, tab.Length, b);
      KeysElsewhere(list, 0, n, tab.Length, key, hashOf);
    }

    /** An element becomes the head of its chain in a table. */
    method PushChain(t: array<Elem?>, e: Elem, ghost n: nat)
      requires t.Length > 0 && IsSize(t.Length) && n < |list| && e == list[n] && Distinct(list)
      requires Chained(list, n, t.Length) && Headed(t[..], list, n)
      modifies t, e`hnext
      ensures Chained(list, n + 1, t.Length) && Headed(t[..], list, n + 1)
    {
      hide Newest, Headed, IsSize;
      var b := Slot(e.hash, t.Length);
      ghost var was := t[..];
      HeadIs(was, list, n, b);
      assert was[b] == t[b];
      e.hnext := t[b];
      HeadedNext(was, list, n, b);
      t[b] := e;
      assert t[..] == was[b := e];
    }

    /** All elements become heads of their chains, in the order of creation. */
    method FillTable(nt: array<Elem?>)
      requires IsSize(nt.Length) && nt != tab && (forall b :: 0 <= b < nt.Length ==> nt[b] == null)
      requires KeysDistinct(list) && Threaded(first, last, list)
      modifies nt, list`hnext
      ensures Chained(list, |list|, nt.Length) && Headed(nt[..], list, |list|)
    {
      hide Newest, Chained, Headed, KeysDistinct, Threaded, Distinct, IsSize, At;
      SizePositive(nt.Length);
      KeysThenDistinct(list);
      NoneChained(nt[..], list);
      FirstIs(first, last, list);
      var e := first;
      ghost var n := 0;
      while e != null
        invariant 0 <= n <= |list| && e == At(list, n)
        invariant Chained(list, n, nt.Length) && Headed(nt[..], list, n)
        decreases |list| - n
      {
        NextIs(first, last, list, n);
        PushChain(nt, e, n);
        e := e.next;
        n := n + 1;
      }
      AtEnd(list, n);
    }

    /** array_rehash: a table four times as large, made in the order of creation. */
    method Rehash()
      requires Valid()
      modifies this`tab, list`hnext
      ensures Valid() && fresh(tab) && tab.Length == if old(tab.Length) > 0 then 4 * old(tab.Length) else 16
      ensures Pairs() == old(Pairs())
    {
      hide Newest, Hashed, Chained, Headed, PairsOf, KeysDistinct, Threaded;
      var ns := if tab.Length > 0 then 4 * tab.Length else 16;
      var nt := new Elem?[ns](_ => null);
      FillTable(nt);
      tab := nt;
    }

    /** The element becomes the newest: it is threaded after the last. */
    method PushOrder(e: Elem, ghost l: seq<Elem>)
      requires Threaded(first, last, l) && Distinct(l) && e !in l
      modifies this`first, this`last, l`next, e`next, e`prev
      ensures Threaded(first, last, l + [e])
    {
      e.next := null;
      e.prev := last;
      if last != null {
        last.next := e;
      } else {
        first := e;
      }
      last := e;
    }

    /** A new element without a value, last in the order, and not yet in a chain. */
    method Thread(key: string) returns (e: Elem)
      requires Valid() && count < tab.Length && KeyAbsent(list, 0, |list|, key)
      modifies this`first, this`last, this`list, list`next
      ensures fresh(e) && list == old(list) + [e] && e.key == key
      ensures KeysDistinct(list) && Hashed(list, hashOf) && Threaded(first, last, list) && Distinct(list)
      ensures Chained(list, |list| - 1, tab.Length) && Headed(tab[..], list, |list| - 1)
      ensures Pairs() == old(Pairs()) + [(key, Uninit)]
    {
      hide Newest, Hashed, Chained, Headed, PairsOf, KeysDistinct, Threaded, Distinct, KeyAbsent, IsSize;
      KeysThenDistinct(list);
      ghost var l := list;
      e := new Elem(key, hashOf(key));
      MorePairs(l, e);
      MoreKeys(l, e, key, hashOf);
      MoreChained(tab[..], l, e);
      PushOrder(e, l);
      list := l + [e];
    }

    /** A new element without a value, for which there is room. */
    method Append(key: string) returns (e: Elem)
      requires Valid() && count < tab.Length && KeyAbsent(list, 0, |list|, key)
      modifies this`count, this`first, this`last, this`list, tab, list`next
      ensures Valid() && fresh(e) && list == old(list) + [e] && e.key == key
      ensures Pairs() == old(Pairs()) + [(key, Uninit)]
    {
      hide Newest, Hashed, Chained, Headed, PairsOf, KeysDistinct, Threaded, Distinct, KeyAbsent, IsSize;
      e := Thread(key);
      PushChain(tab, e, |list| - 1);
      count := count + 1;
    }

    /** array_get when the key is new. */
    method Create(key: string) returns (e: Elem)
      requires Valid() && KeyAbsent(list, 0, |list|, key)
      modifies this`tab, this`count, this`first, this`last, this`list, tab, list`hnext, list`next
      ensures Valid() && (tab == old(tab) || fresh(tab)) && fresh(e) && list == old(list) + [e] && e.key == key
      ensures Pairs() == old(Pairs()) + [(key, Uninit)]
      ensures tab.Length == if |old(list)| < old(tab.Length) then old(tab.Length) else if old(tab.Length) > 0 then 4 * old(tab.Length) else 16
    {
      hide Newest, Hashed, Chained, Headed, PairsOf, KeysDistinct, Threaded, Distinct, KeyAbsent, IsSize;
      if count + 1 > tab.Length {
        Rehash();
      }
      e := Append(key);
    }

    /** array_get: the element of the key, made when there is none and it is wanted. */
    method Get(key: string, create: bool) returns (e: Elem?)
      requires Valid()
      modifies this`tab, this`count, this`first, this`last, this`list, tab, list`hnext, list`next
      ensures Valid() && (tab == old(tab) || fresh(tab))
      ensures e == null ==> !create && list == old(list) && KeyAbsent(list, 0, |list|, key) && Pairs() == old(Pairs())
      ensures e != null ==> e in list && e.key == key
      ensures e != null && e in old(list) ==> list == old(list) && Pairs() == old(Pairs())
      ensures e != null && e !in old(list) ==> create && fresh(e) && old(KeyAbsent(list, 0, |list|, key)) && list == old(list) + [e]
      ensures e != null && e !in old(list) ==> Pairs() == old(Pairs()) + [(key, Uninit)]
    {
      ghost var at;
      e, at := Find(key);
      if e != null || !create {
        return;
      }
      e := Create(key);
    }

    /** An element is taken out of its chain; before is the one that leads to it, if the head does not. */
    method UnlinkChain(before: Elem?, e: Elem, b: nat, ghost k: nat, ghost n: nat)
      requires IsSize(tab.Length) && Chained(list, |list|, tab.Length) && Headed(tab[..], list, |list|) && Distinct(list)
      requires k < n <= |list| && e == list[k] && b < tab.Length && e.hash % tab.Length == b
      requires Skipped(list, k + 1, n, tab.Length, b) && before == At(list, n)
      requires n < |list| ==> list[n].hash % tab.Length == b
      modifies tab, list`hnext
      ensures Chained(Without(list, k), |list| - 1, tab.Length) && Headed(tab[..], Without(list, k), |list| - 1)
    {
      hide Newest, Headed, IsSize, Skipped;
      ghost var was := tab[..];
      SizePositive(tab.Length);
      if before == null {
        tab[b] := e.hnext;
        assert tab[..] == was[b := e.hnext];
      } else {
        before.hnext := e.hnext;
      }
      ChainedWithout(list, k, n, tab.Length, b);
      HeadedWithout(was, list, k, n, b);
    }

    /** An element is taken out of the order, as its neighbour before sees it. */
    method UnlinkNext(e: Elem, ghost k: nat)
      requires k < |list| && e == list[k] && Distinct(list) && Threaded(first, last, list)
      modifies this`first, list`next
      ensures first == (if k == 0 then At(list, 1) else At(list, 0)) && e.next == At(list, k + 1)
      ensures forall i :: 0 <= i < |list| && i != k ==> list[i].next == At(list, if i == k - 1 then k + 1 else i + 1)
    {
      hide At, Distinct, Threaded;
      ThreadsOf(first, last, list);
      NeighboursOf(first, last, list, k);
      if e.prev != null {
        e.prev.next := e.next;
      } else {
        first := e.next;
      }
    }

    /** And as its neighbour after sees it. */
    method UnlinkPrev(e: Elem, ghost k: nat)
      requires k < |list| && e == list[k] && Distinct(list)
      requires last == At(list, |list| - 1) && e.next == At(list, k + 1)
      requires forall i :: 0 <= i < |list| ==> list[i].prev == At(list, i - 1)
      modifies this`last, list`prev
      ensures last == if k == |list| - 1 then At(list, k - 1) else At(list, |list| - 1)
      ensures forall i :: 0 <= i < |list| && i != k ==> list[i].prev == At(list, if i == k + 1 then k - 1 else i - 1)
    {
      hide At, Distinct;
      AfterOf(list, k);
      if e.next != null {
        e.next.prev := e.prev;
      } else {
        last := e.prev;
      }
    }

    /** array_delete: the neighbours lead past the element. */
    method UnlinkOrder(e: Elem, ghost k: nat)
      requires k < |list| && e == list[k] && Distinct(list) && Threaded(first, last, list)
      modifies this`first, this`last, list`next, list`prev
      ensures Threaded(first, last, Without(list, k))
    {
      hide At, Distinct, Threaded, Without;
      ThreadsOf(first, last, list);
      UnlinkNext(e, k);
      UnlinkPrev(e, k);
      ThreadedWithout(first, last, list, k);
    }

    /** The element of a key, and what leads to it in its chain. */
    method FindBefore(key: string) returns (before: Elem?, e: Elem?, b: nat, ghost k: nat, ghost n: nat)
      requires Valid() && tab.Length > 0
      ensures e == null ==> KeyAbsent(list, 0, |list|, key)
      ensures e != null ==> k < n <= |list| && e == list[k] && e.key == key && b < tab.Length && e.hash % tab.Length == b
      ensures e != null ==> Skipped(list, k + 1, n, tab.Length, b) && before == At(list, n)
      ensures e != null && n < |list| ==> list[n].hash % tab.Length == b
    {
      hide Threaded, KeysDistinct, IsSize, Newest, Chained, Headed, Hashed, KeyAbsent, Skipped;
      var h := hashOf(key);
      b := Slot(h, tab.Length);
      HeadIs(tab[..], list, |list|, b);
      assert tab[..][b] == tab[b];
      before, e := null, tab[b];
      n, k := |list|, 0;
      NoKeys(list, key);
      while e != null
        invariant n <= |list| && e == Newest(list, n, tab.Length, b) && KeyAbsent(list, n, |list|, key)
        invariant before == At(list, n) && (n < |list| ==> list[n].hash % tab.Length == b)
        decreases n
      {
        k := Link(list, n, tab.Length, b);
        KeysElsewhere(list, k + 1, n, tab.Length, key, hashOf);
        if e.hash == h && e.key == key {
          return;
        }
        OtherKey(list, k, key, hashOf);
        before := e;
        e := e.hnext;
        n := k;
      }
      ChainEnd(list, n, tab.Length, b);
      KeysElsewhere(list, 0, n, tab.Length, key, hashOf);
    }

    /** array_delete: the key and its value go; the order of the others stays. */
    method Delete(key: string) returns (ghost k: nat)
      requires Valid()
      modifies this`count, this`first, this`last, this`list, tab, list`hnext, list`next, list`prev
      ensures Valid()
      ensures k == |old(list)| ==> list == old(list) && old(KeyAbsent(list, 0, |list|, key)) && Pairs() == old(Pairs())
      ensures k < |old(list)| ==> old(list)[k].key == key && list == Without(old(list), k)
      ensures k < |old(list)| ==> Pairs() == Without(old(Pairs()), k)
      ensures k <= |old(list)|
    {
      hide Newest, Hashed, Chained, Headed, PairsOf, KeysDistinct, Threaded, Distinct, KeyAbsent, IsSize, Without, Skipped;
      k := |list|;
      if tab.Length == 0 {
        NoneAbsent(list, key);
        return;
      }
      var before, e, b;
      ghost var at, n;
      before, e, b, at, n := FindBefore(key);
      if e == null {
        return;
      }
      k := at;
      KeysThenDistinct(list);
      Unlink(before, e, b, k, n);
    }

    /** An element that has been found is taken out. */
    method Unlink(before: Elem?, e: Elem, b: nat, ghost k: nat, ghost n: nat)
      requires Valid() && TableOk() && k < n <= |list| && e == list[k] && b < tab.Length && e.hash % tab.Length == b
      requires Skipped(list, k + 1, n, tab.Length, b) && before == At(list, n)
      requires n < |list| ==> list[n].hash % tab.Length == b
      modifies this`count, this`first, this`last, this`list, tab, list`hnext, list`next, list`prev
      ensures Valid() && list == Without(old(list), k) && Pairs() == Without(old(Pairs()), k)
    {
      hide Newest, Hashed, Chained, Headed, PairsOf, KeysDistinct, Threaded, Distinct, KeyAbsent, IsSize, Without, Skipped;
      ghost var t := Without(list, k);
      KeysThenDistinct(list);
      FewerPairs(list, k);
      FewerKeys(list, k, hashOf);
      assert PairsOf(t) == Without(old(Pairs()), k);
      UnlinkOrder(e, k);
      assert PairsOf(t) == Without(old(Pairs()), k);
      UnlinkChain(before, e, b, k, n);
      assert PairsOf(t) == Without(old(Pairs()), k) && Threaded(first, last, t);
      list := t;
      count := count - 1;
      assert Threaded(first, last, list) && TableOk();
    }

    /** array_clear */
    method Clear()
      requires Valid()
      modifies this`tab, this`count, this`first, this`last, this`list
      ensures Valid() && fresh(tab) && tab.Length == 0 && list == [] && Pairs() == []
    {
      tab := new Elem?[0];
      count, first, last := 0, null, null;
      list := [];
    }

    /** array_keys: the live keys, in the order of creation. */
    method Keys() returns (k: seq<string>)
      requires Valid()
      ensures k == KeysOf(Pairs())
    {
      hide Newest, Hashed, Chained, Headed, PairsOf, KeysDistinct, Threaded, Distinct, At;
      k := [];
      var e := first;
      ghost var n := 0;
      FirstIs(first, last, list);
      while e != null
        invariant 0 <= n <= |list| && e == At(list, n) && k == KeysOf(Pairs()[..n])
        decreases |list| - n
      {
        NextIs(first, last, list, n);
        KeysSnoc(Pairs(), n);
        k := k + [e.key];
        e := e.next;
        n := n + 1;
      }
      AtEnd(list, n);
      assert Pairs()[..n] == Pairs();
    }
  }

  function KeysOf(p: seq<(string, Value)>): (k: seq<string>)
    ensures |k| == |p| && forall i :: 0 <= i < |p| ==> k[i] == p[i].0
  {
    seq(|p|, i requires 0 <= i < |p| => p[i].0)
  }

  lemma {:induction false} KeysSnoc(p: seq<(string, Value)>, n: nat)
    requires n < |p|
    ensures KeysOf(p[..n + 1]) == KeysOf(p[..n]) + [p[n].0]
  {
  }

  lemma {:induction false} NoneAbsent(s: seq<Elem>, key: string)
    requires |s| == 0
    ensures KeyAbsent(s, 0, |s|, key)
  {
  }

  lemma {:induction false} NeighboursOf(first: Elem?, last: Elem?, s: seq<Elem>, k: nat)
    requires k < |s| && Threaded(first, last, s) && Distinct(s)
    ensures s[k].prev == null <==> k == 0
    ensures k > 0 ==> s[k].prev == s[k - 1] && forall i :: 0 <= i < |s| && i != k - 1 ==> s[i] != s[k - 1]
    ensures s[k].next == At(s, k + 1) && (k == 0 ==> At(s, k + 1) == At(s, 1))
  {
  }

  lemma {:induction false} AfterOf(s: seq<Elem>, k: nat)
    requires k < |s| && Distinct(s)
    ensures At(s, k + 1) == null <==> k == |s| - 1
    ensures k < |s| - 1 ==> At(s, k + 1) == s[k + 1] && forall i :: 0 <= i < |s| && i != k + 1 ==> s[i] != s[k + 1]
  {
  }

  /** The order without one element, when its neighbours lead past it. */
  lemma {:induction false} ThreadedWithout(first: Elem?, last: Elem?, s: seq<Elem>, k: nat)
    requires k < |s|
    requires first == (if k == 0 then At(s, 1) else At(s, 0)) && last == (if k == |s| - 1 then At(s, k - 1) else At(s, |s| - 1))
    requires forall i :: 0 <= i < |s| && i != k ==> s[i].next == At(s, if i == k - 1 then k + 1 else i + 1)
    requires forall i :: 0 <= i < |s| && i != k ==> s[i].prev == At(s, if i == k + 1 then k - 1 else i - 1)
    ensures Threaded(first, last, Without(s, k))
  {
    hide At, Without;
    var t := Without(s, k);
    WithoutAt(s, k, 0);
    WithoutAt(s, k, |t| - 1);
    forall j | 0 <= j < |t|
      ensures t[j].next == At(t, j + 1) && t[j].prev == At(t, j - 1)
    {
      WithoutAt(s, k, j);
      WithoutAt(s, k, j + 1);
      WithoutAt(s, k, j - 1);
    }
  }

  lemma {:induction false} WithoutAt(s: seq<Elem>, k: nat, j: int)
    requires k < |s| && -1 <= j < |s|
    ensures At(Without(s, k), j) == At(s, if j < k then j else j + 1)
    ensures 0 <= j < |s| - 1 ==> Without(s, k)[j] == s[if j < k then j else j + 1]
  {
  }

  lemma {:induction false} ThreadsOf(first: Elem?, last: Elem?, s: seq<Elem>)
    requires Threaded(first, last, s)
    ensures first == At(s, 0) && last == At(s, |s| - 1)
    ensures forall i :: 0 <= i < |s| ==> s[i].next == At(s, i + 1) && s[i].prev == At(s, i - 1)
  {
  }

  lemma {:induction false} FewerPairs(s: seq<Elem>, k: nat)
    requires k < |s|
    ensures PairsOf(Without(s, k)) == Without(PairsOf(s), k)
  {
    hide PairsOf;
  }

  lemma {:induction false} FewerKeys(s: seq<Elem>, k: nat, hashOf: string -> nat)
    requires k < |s| && KeysDistinct(s) && Hashed(s, hashOf)
    ensures KeysDistinct(Without(s, k)) && Hashed(Without(s, k), hashOf)
  {
  }

  function Without<T>(s: seq<T>, k: nat): (t: seq<T>)
    requires k < |s|
    ensures |t| == |s| - 1
  {
    s[..k] + s[k + 1..]
  }

  lemma {:induction false} NewestIs(s: seq<Elem>, k: nat, n: nat, size: nat, b: nat)
    requires k < n <= |s| && size > 0 && s[k].hash % size == b && Skipped(s, k + 1, n, size, b)
    ensures Newest(s, n, size, b) == s[k]
  {
    if k + 1 < n {
      NewestIs(s, k, n - 1, size, b);
    }
  }

  /** If one element is the newest, no other of its chain comes after it. */
  lemma {:induction false} NewestOnly(s: seq<Elem>, k: nat, n: nat, size: nat, b: nat, i: nat)
    requires k < |s| && n <= |s| && size > 0 && Distinct(s) && Newest(s, n, size, b) == s[k]
    ensures k < n && s[k].hash % size == b && (k < i < n ==> s[i].hash % size != b)
  {
    var at := NewestAt(s, n, size, b);
  }

  lemma {:induction false} NewestRemoved(s: seq<Elem>, k: nat, j: nat, size: nat, b: nat)
    requires k < j <= |s| && size > 0 && Distinct(s)
    ensures Newest(Without(s, k), j - 1, size, b) == if Newest(s, j, size, b) == s[k] then Newest(s, k, size, b) else Newest(s, j, size, b)
  {
    var t := Without(s, k);
    if j == k + 1 {
      NewestPrefix(s, t, k, size, b);
      if Newest(s, k, size, b) == s[k] {
        NewestOnly(s, k, k, size, b, k);
      }
    } else {
      NewestRemoved(s, k, j - 1, size, b);
      assert t[j - 2] == s[j - 1] && s[j - 1] != s[k];
    }
  }

  /** The chains without one element, when the one that led to it leads past it. */
  lemma {:induction false} ChainedWithout(s: seq<Elem>, k: nat, n: nat, size: nat, b: nat)
    requires k < n <= |s| && size > 0 && Distinct(s) && s[k].hash % size == b && Skipped(s, k + 1, n, size, b)
    requires n < |s| ==> s[n].hash % size == b && s[n].hnext == Newest(s, k, size, b)
    requires forall i :: 0 <= i < |s| && i != n ==> s[i].hnext == Newest(s, i, size, s[i].hash % size)
    ensures Chained(Without(s, k), |s| - 1, size)
  {
    hide Newest;
    var t := Without(s, k);
    forall j | 0 <= j < |t|
      ensures t[j].hnext == Newest(t, j, size, t[j].hash % size)
    {
      if j < k {
        NewestPrefix(s, t, j, size, t[j].hash % size);
      } else {
        var i := j + 1;
        assert t[j] == s[i];
        NewestRemoved(s, k, i, size, s[i].hash % size);
        if i == n {
          NewestIs(s, k, n, size, b);
        } else if Newest(s, i, size, s[i].hash % size) == s[k] {
          NewestOnly(s, k, i, size, s[i].hash % size, n);
          assert false;
        }
      }
    }
  }

  lemma {:induction false} HeadedWithout(tab: seq<Elem?>, s: seq<Elem>, k: nat, n: nat, b: nat)
    requires |tab| > 0 && Headed(tab, s, |s|) && Distinct(s) && b < |tab|
    requires k < n <= |s| && s[k].hash % |tab| == b && Skipped(s, k + 1, n, |tab|, b)
    requires n < |s| ==> s[n].hash % |tab| == b
    ensures n == |s| ==> Headed(tab[b := Newest(s, k, |tab|, b)], Without(s, k), |s| - 1)
    ensures n < |s| ==> Headed(tab, Without(s, k), |s| - 1)
  {
    hide Newest;
    var tab' := if n == |s| then tab[b := Newest(s, k, |tab|, b)] else tab;
    forall c | 0 <= c < |tab|
      ensures tab'[c] == Newest(Without(s, k), |s| - 1, |tab|, c)
    {
      NewestRemoved(s, k, |s|, |tab|, c);
      if Newest(s, |s|, |tab|, c) == s[k] {
        NewestOnly(s, k, |s|, |tab|, c, n);
      } else if c == b && n == |s| {
        NewestIs(s, k, n, |tab|, b);
      }
    }
  }

  lemma {:induction false} MorePairs(l: seq<Elem>, e: Elem)
    ensures PairsOf(l + [e]) == PairsOf(l) + [(e.key, e.v)]
  {
    assert (l + [e])[..|l|] == l;
  }

  lemma {:induction false} MoreKeys(l: seq<Elem>, e: Elem, key: string, hashOf: string -> nat)
    requires KeysDistinct(l) && Hashed(l, hashOf) && KeyAbsent(l, 0, |l|, key) && e.key == key && e.hash == hashOf(key)
    ensures KeysDistinct(l + [e]) && Hashed(l + [e], hashOf) && Distinct(l + [e]) && e !in l
  {
  }

  /** What holds of the first elements holds whatever comes after them. */
  lemma {:induction false} MoreChained(tab: seq<Elem?>, l: seq<Elem>, e: Elem)
    requires |tab| > 0 && Chained(l, |l|, |tab|) && Headed(tab, l, |l|)
    ensures Chained(l + [e], |l|, |tab|) && Headed(tab, l + [e], |l|)
  {
    forall n: nat, b: nat | n <= |l|
      ensures Newest(l, n, |tab|, b) == Newest(l + [e], n, |tab|, b)
    {
      NewestPrefix(l, l + [e], n, |tab|, b);
    }
  }

  lemma {:induction false} FirstIs(first: Elem?, last: Elem?, s: seq<Elem>)
    requires Threaded(first, last, s)
    ensures first == At(s, 0)
  {
  }

  lemma {:induction false} NextIs(first: Elem?, last: Elem?, s: seq<Elem>, n: nat)
    requires Threaded(first, last, s) && At(s, n) != null
    ensures n < |s| && At(s, n) == s[n] && s[n].next == At(s, n + 1)
  {
  }

  lemma {:induction false} AtEnd(s: seq<Elem>, n: nat)
    requires n <= |s| && At(s, n) == null
    ensures n == |s|
  {
  }

  ghost predicate Distinct(s: seq<Elem>)
  {
    forall i, j :: 0 <= i < j < |s| ==> s[i] != s[j]
  }

  lemma {:induction false} KeysThenDistinct(s: seq<Elem>)
    requires KeysDistinct(s)
    ensures Distinct(s)
  {
  }

  lemma {:induction false} NoneChained(tab: seq<Elem?>, s: seq<Elem>)
    requires |tab| > 0 && forall b :: 0 <= b < |tab| ==> tab[b] == null
    ensures Chained(s, 0, |tab|) && Headed(tab, s, 0)
  {
  }

  lemma {:induction false} NoKeys(s: seq<Elem>, key: string)
    ensures KeyAbsent(s, |s|, |s|, key)
  {
  }
}
