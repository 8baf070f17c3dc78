/** gzip.c's insert and longest: strings seen before. */
module Matches {
  import opened Bits
  import opened Deflate
  import opened Tokens
  import opened Window
  import opened Chains

  /** The n bytes at p are those d before. */
  ghost predicate IsMatch(data: seq<byte>, p: nat, d: nat, n: nat)
  {
    1 <= d <= p && d <= WSIZE && p + n <= |data| && forall j :: p <= j < p + n ==> data[j - d] == data[j]
  }

  /** Copying from a match gives the bytes that follow. */
  lemma {:induction false} CopyMatch(data: seq<byte>, p: nat, d: nat, n: nat)
    requires IsMatch(data, p, d, n)
    ensures Copy(data[..p], n, d) == data[..p + n]
    decreases n
  {
    if n > 0 {
      assert data[p - d] == data[p];
      assert data[..p] + [data[..p][|data[..p]| - d]] == data[..p + 1];
      CopyMatch(data, p + 1, d, n - 1);
    }
  }

  /** The window repeats at s what it has at m. */
  ghost predicate Repeats(win: seq<byte>, m: nat, s: nat, l: nat)
  {
    m < s && s + l <= |win| && forall j :: s <= j < s + l ==> win[j - (s - m)] == win[j]
  }

  lemma {:induction false} RepeatIsMatch(win: seq<byte>, n: nat, input: seq<byte>, base: nat, m: nat, s: nat, l: nat)
    requires Shows(win, n, input, base) && Repeats(win, m, s, l) && s + l <= n && s - m <= WSIZE
    ensures IsMatch(input, base + s, s - m, l)
  {
    var p, d := base + s, s - m;
    forall j | p <= j < p + l ensures input[j - d] == input[j] {
      assert win[j - base - d] == win[j - base];
    }
  }

  /** The hash chains go with the window. */
  ghost predicate Together(wn: Window, ch: Chains)
    reads wn, wn.win, ch, ch.head, ch.prev
  {
    wn.Valid() && ch.Valid() && ch.base == wn.base
  }

  /** insert: the string of three bytes at pos. */
  method Insert(wn: Window, ch: Chains, pos: nat) returns (m: int)
    requires Together(wn, ch) && pos + 3 <= wn.strstart + wn.lookahead && ch.top <= ch.base + pos
    modifies ch`ins, ch`top, ch.head, ch.prev
    ensures Together(wn, ch) && ch.top == ch.base + pos + 1
    ensures m == NIL || (0 <= m < pos && ch.base + m in ch.ins)
  {
    m := ch.Insert(Hash(wn.win[pos], wn.win[pos + 1], wn.win[pos + 2]), pos);
  }

  /** How far the string at m goes like the one at s, which it does for two bytes. */
  method MatchLength(wn: Window, m: nat, s: nat, maxlen: nat) returns (l: nat)
    requires wn.win.Length >= s + maxlen && m < s && maxlen >= 2
    requires wn.win[m] == wn.win[s] && wn.win[m + 1] == wn.win[s + 1]
    ensures 2 <= l <= maxlen && Repeats(wn.win[..], m, s, l)
    ensures l < maxlen ==> wn.win[m + l] != wn.win[s + l]
  {
    l := 2;
    while l < maxlen && wn.win[m + l] == wn.win[s + l]
      invariant 2 <= l <= maxlen && Repeats(wn.win[..], m, s, l)
    {
      l := l + 1;
    }
  }

  /** good_length, nice_length and max_chain of a level. */
  datatype Effort = Effort(good: nat, lazy: nat, nice: nat, chain: nat)

  /** gzip_compress's config. */
  function Config(level: nat): Effort
  {
    if level == 1 then Effort(4, 4, 8, 4)
    else if level == 2 then Effort(4, 5, 16, 8)
    else if level == 3 then Effort(4, 6, 32, 32)
    else if level == 4 then Effort(4, 4, 16, 16)
    else if level == 5 then Effort(8, 16, 32, 32)
    else if level == 6 then Effort(8, 16, 128, 128)
    else if level == 7 then Effort(8, 32, 128, 256)
    else if level == 8 then Effort(32, 128, 258, 1024)
    else if level == 9 then Effort(32, 258, 258, 4096)
    else Effort(0, 0, 0, 0)
  }

  /** A match for the string at strstart that was found in the window. */
  ghost predicate Found(wn: Window, start: int, n: nat)
    reads wn
  {
    && 0 <= start < wn.strstart && n <= wn.lookahead && n <= MAX_MATCH
    && IsMatch(wn.input, wn.base + wn.strstart, wn.strstart - start, n)
  }

  /** No string at m is like the one at s for more than best bytes. */
  ghost predicate NoLonger(win: seq<byte>, m: nat, s: nat, maxlen: nat, best: nat)
  {
    forall n :: best < n <= maxlen ==> !Repeats(win, m, s, n)
  }

  ghost predicate AllNoLonger(win: seq<byte>, visited: seq<nat>, s: nat, maxlen: nat, best: nat)
  {
    forall j :: 0 <= j < |visited| ==> NoLonger(win, visited[j], s, maxlen, best)
  }

  /** The positions are those of the chain that begins at from, and next is the one after them. */
  ghost predicate Follows(prev: seq<int>, from: int, visited: seq<nat>, next: int)
    requires |prev| == CWSIZE
  {
    if visited == [] then next == from
    else
      var last := visited[|visited| - 1];
      next == prev[last % CWSIZE] && Follows(prev, from, visited[..|visited| - 1], last)
  }

  lemma {:induction false} FollowsMore(prev: seq<int>, from: int, visited: seq<nat>, cur: nat)
    requires |prev| == CWSIZE && Follows(prev, from, visited, cur)
    ensures Follows(prev, from, visited + [cur], prev[cur % CWSIZE])
  {
    assert (visited + [cur])[..|visited|] == visited;
  }

  lemma {:induction false} AllMore(win: seq<byte>, visited: seq<nat>, s: nat, maxlen: nat, best: nat, cur: nat, better: nat)
    requires AllNoLonger(win, visited, s, maxlen, best) && best <= better && NoLonger(win, cur, s, maxlen, better)
    ensures AllNoLonger(win, visited + [cur], s, maxlen, better)
  {
    hide Repeats;
  }

  function MaxLength(wn: Window): nat
    reads wn
  {
    if wn.lookahead < MAX_MATCH then wn.lookahead else MAX_MATCH
  }

  /** How many positions of a chain are looked at, and how far back. */
  function Budget(e: Effort, prevlen: nat): nat
  {
    if prevlen >= e.good then e.chain / 4 else e.chain
  }

  function Limit(wn: Window): nat
    reads wn
  {
    if wn.strstart > MAX_DIST then wn.strstart - MAX_DIST else 0
  }

  /** Why the search of a chain ended: the match is long enough, enough positions were looked at, or the
      chain has no more in reach. */
  ghost predicate Ended(best: nat, nice: nat, maxlen: nat, looked: nat, budget: nat, next: int, limit: nat)
  {
    best >= nice || best >= maxlen || looked == budget || next == NIL || next < limit
  }

  /** longest: the longest match along the chain from cur, as far as the effort goes, or prevlen. */
  method Longest(wn: Window, ch: Chains, e: Effort, from: int, prevlen: nat, start: int)
    returns (best: nat, matchStart: int, ghost visited: seq<nat>, ghost next: int)
    requires Together(wn, ch) && ch.top == wn.base + wn.strstart + 1
    requires from == NIL || (0 <= from < wn.strstart && ch.base + from in ch.ins)
    requires prevlen >= 2
    ensures best >= prevlen && (best == prevlen ==> matchStart == start)
    ensures best > prevlen ==> Found(wn, matchStart, best)
    ensures AllNoLonger(wn.win[..], visited, wn.strstart, MaxLength(wn), best)
    ensures Follows(ch.prev[..], from, visited, next)
    ensures Ended(best, e.nice, MaxLength(wn), |visited|, Budget(e, prevlen), next, Limit(wn))
  {
    hide IsMatch, Repeats, NoLonger, AllNoLonger, Follows;
    var cur := from;
    var chain := Budget(e, prevlen);
    best, matchStart, visited, next := prevlen, start, [], from;
    var limit := Limit(wn);
    var maxlen := MaxLength(wn);
    NothingVisited(wn.win[..], ch.prev[..], from, wn.strstart, maxlen, best);
    if best >= maxlen {
      return;
    }
    while cur != NIL && cur >= limit && chain > 0
      invariant cur == next && (cur == NIL || (0 <= cur < wn.strstart && ch.base + cur in ch.ins))
      invariant prevlen <= best < maxlen && (best == prevlen ==> matchStart == start)
      invariant best > prevlen ==> Found(wn, matchStart, best)
      invariant chain >= 0 && chain + |visited| == Budget(e, prevlen)
      invariant AllNoLonger(wn.win[..], visited, wn.strstart, maxlen, best) && Follows(ch.prev[..], from, visited, next)
      decreases chain
    {
      chain := chain - 1;
      var l := Try(wn, cur, best, maxlen);
      AllMore(wn.win[..], visited, wn.strstart, maxlen, best, cur, if l > best then l else best);
      FollowsMore(ch.prev[..], from, visited, cur);
      visited, next := visited + [cur], ch.prev[cur % CWSIZE];
      if l > best {
        best := l;
        matchStart := cur;
        if l >= e.nice || l >= maxlen {
          break;
        }
      }
      cur := ch.Previous(cur);
    }
  }

  lemma {:induction false} NothingVisited(win: seq<byte>, prev: seq<int>, from: int, s: nat, maxlen: nat, best: nat)
    requires |prev| == CWSIZE
    ensures AllNoLonger(win, [], s, maxlen, best) && Follows(prev, from, [], from)
  {
  }

  /** How long the match at cur is, if it is better than best. */
  method Try(wn: Window, cur: nat, best: nat, maxlen: nat) returns (l: nat)
    requires wn.Valid() && cur < wn.strstart <= cur + MAX_DIST && 2 <= best < maxlen <= wn.lookahead && maxlen <= MAX_MATCH
    ensures l <= maxlen && (l > best ==> Found(wn, cur, l))
    ensures NoLonger(wn.win[..], cur, wn.strstart, maxlen, if l > best then l else best)
  {
    l := 0;
    var s := wn.strstart;
    if wn.win[cur + best] == wn.win[s + best] && wn.win[cur] == wn.win[s] && wn.win[cur + 1] == wn.win[s + 1] {
      l := MatchLength(wn, cur, s, maxlen);
      RepeatIsMatch(wn.win[..], s + wn.lookahead, wn.input, wn.base, cur, s, l);
      LongestHere(wn.win[..], cur, s, maxlen, l);
    } else {
      NotLonger(wn.win[..], cur, s, maxlen, best);
    }
  }

  lemma {:induction false} RepeatsAt(win: seq<byte>, m: nat, s: nat, n: nat, k: nat)
    requires Repeats(win, m, s, n) && k < n
    ensures win[m + k] == win[s + k]
  {
    assert win[s + k - (s - m)] == win[s + k];
  }

  lemma {:induction false} RepeatsThrice(win: seq<byte>, m: nat, s: nat, n: nat, k: nat)
    requires Repeats(win, m, s, n) && 2 <= k < n
    ensures win[m] == win[s] && win[m + 1] == win[s + 1] && win[m + k] == win[s + k]
  {
    RepeatsAt(win, m, s, n, 0);
    RepeatsAt(win, m, s, n, 1);
    RepeatsAt(win, m, s, n, k);
  }

  lemma {:induction false} LongestHere(win: seq<byte>, m: nat, s: nat, maxlen: nat, l: nat)
    requires m < s && s + maxlen <= |win| && l <= maxlen && (l < maxlen ==> win[m + l] != win[s + l])
    ensures forall best :: best >= l ==> NoLonger(win, m, s, maxlen, best)
  {
    forall n | l < n <= maxlen
      ensures !Repeats(win, m, s, n)
    {
      if Repeats(win, m, s, n) {
        RepeatsAt(win, m, s, n, l);
      }
    }
  }

  lemma {:induction false} NotLonger(win: seq<byte>, m: nat, s: nat, maxlen: nat, best: nat)
    requires m < s && s + maxlen <= |win| && 2 <= best < maxlen
    requires win[m + best] != win[s + best] || win[m] != win[s] || win[m + 1] != win[s + 1]
    ensures NoLonger(win, m, s, maxlen, best)
  {
    forall n | best < n <= maxlen
      ensures !Repeats(win, m, s, n)
    {
      if Repeats(win, m, s, n) {
        RepeatsThrice(win, m, s, n, best);
      }
    }
  }
}
