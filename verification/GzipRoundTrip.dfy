/** gzip files come back as they were: one member, several, and what follows them. */
module GzipRoundTrip {
  import opened Bits
  import opened Deflate
  import opened Tokens
  import opened GzipMember
  import GzipCompress
  import GzipDecompress

  /** A member with anything after it. */
  lemma {:induction false} MemberThen(m: seq<byte>, data: seq<byte>, tail: seq<byte>, out: seq<byte>)
    requires IsMember(m, data)
    ensures |m| >= 2 && m[0] == 0x1f && m[1] == 0x8b
    ensures Same(Gunzip(Unpack((m + tail)[2..]), out), AfterMember(Unpack(tail), out + data))
  {
    hide IsMember, MemberHolds, Gunzip;
    MemberDecodes(m, data);
    assert (m + tail)[2..] == m[2..] + tail;
    UnpackConcat(m[2..], tail);
    HoldsThen(Unpack(m[2..]), data, Unpack(tail), out);
  }

  lemma {:induction false} HoldsThen(body: seq<bool>, data: seq<byte>, rest: seq<bool>, out: seq<byte>)
    requires MemberHolds(body, data) && |rest| % 8 == 0
    ensures Same(Gunzip(body + rest, out), AfterMember(rest, out + data))
  {
  }

  /** What has the form of a member is decompressed to its content. */
  lemma {:induction false} MemberAlone(m: seq<byte>, data: seq<byte>)
    requires IsMember(m, data)
    ensures |m| >= 2 && m[0] == 0x1f && m[1] == 0x8b && Gunzip(Unpack(m[2..]), []) == Result(NoError, data)
  {
    hide Gunzip, MemberHolds, IsMember;
    MemberThen(m, data, [], []);
    assert m + [] == m && [] + data == data && Unpack([]) == [];
  }

  /** No file is a member for two different contents. */
  lemma {:induction false} ContentIsUnique(m: seq<byte>, x: seq<byte>, y: seq<byte>)
    requires IsMember(m, x) && IsMember(m, y)
    ensures x == y
  {
    hide IsMember, Gunzip;
    MemberAlone(m, x);
    MemberAlone(m, y);
  }

  /** What follows a member: nothing, another magic number, or garbage. */
  lemma {:induction false} MagicAhead(tail: seq<byte>)
    ensures NextMember(Unpack(tail)) == if tail == [] then End
                                        else if |tail| >= 2 && tail[0] == 0x1f && tail[1] == 0x8b then Member(Unpack(tail[2..])) else Garbage
  {
    if tail == [] {
      assert Unpack(tail) == [];
    } else if |tail| >= 2 {
      TwoBytesAhead(tail, Unpack(tail), Unpack(tail[1..]), Unpack(tail[2..]));
    }
  }

  lemma {:induction false} TwoBytesAhead(t: seq<byte>, s: seq<bool>, s1: seq<bool>, s2: seq<bool>)
    requires |t| >= 2 && Same(s, Unpack(t)) && Same(s1, Unpack(t[1..])) && Same(s2, Unpack(t[2..]))
    ensures |s| >= 16 && Take(s, 8).v == t[0] && Take(s[8..], 8).v == t[1] && Same(s[16..], s2)
  {
    Pow2Values();
    assert t[1..][1..] == t[2..];
    TakeBack(t[0], 8, s, s1);
    TakeBack(t[1], 8, s1, s2);
    assert s[8..] == s1 && s[16..] == s1[8..];
  }

  /** Files made of members, and what they hold together. */
  ghost predicate Members(file: seq<byte>, ms: seq<seq<byte>>, ds: seq<seq<byte>>, data: seq<byte>)
    decreases |ms|
  {
    |ms| == |ds|
    && if ms == [] then file == [] && data == []
       else
         && |ms[0]| <= |file| && |ds[0]| <= |data|
         && IsMember(ms[0], ds[0]) && file == ms[0] + file[|ms[0]|..] && data == ds[0] + data[|ds[0]|..]
         && Members(file[|ms[0]|..], ms[1..], ds[1..], data[|ds[0]|..])
  }

  /** Members one after another decompress to all that they hold. */
  lemma {:induction false} MembersTogether(file: seq<byte>, ms: seq<seq<byte>>, ds: seq<seq<byte>>, data: seq<byte>, out: seq<byte>)
    requires Members(file, ms, ds, data) && ms != []
    ensures |file| >= 2 && file[0] == 0x1f && file[1] == 0x8b
    ensures Gunzip(Unpack(file[2..]), out) == Result(NoError, out + data)
    decreases |ms|
  {
    hide Gunzip, MemberHolds, Unpack, IsMember;
    var tail, more := file[|ms[0]|..], data[|ds[0]|..];
    MemberThen(ms[0], ds[0], tail, out);
    MagicAhead(tail);
    assert (out + ds[0]) + more == out + data;
    if ms[1..] != [] {
      MembersTogether(tail, ms[1..], ds[1..], more, out + ds[0]);
    }
  }

  /** After a member, anything but another magic number is garbage, and the member's content is kept. */
  lemma {:induction false} GarbageAfterMember(m: seq<byte>, data: seq<byte>, tail: seq<byte>)
    requires IsMember(m, data) && tail != [] && !(|tail| >= 2 && tail[0] == 0x1f && tail[1] == 0x8b)
    ensures |m| >= 2 && Gunzip(Unpack((m + tail)[2..]), []) == Result(Some(TrailingGarbage), data)
  {
    hide IsMember, Gunzip;
    MemberThen(m, data, tail, []);
    MagicAhead(tail);
    assert [] + data == data;
  }

  /** gzip_decompress undoes gzip_compress, for every input, level and time. */
  method RoundTrip(input: seq<byte>, level: nat, mtime: int) returns (file: seq<byte>, r: Result)
    requires 1 <= level <= 9
    ensures |file| >= 2 && file[0] == 0x1f && file[1] == 0x8b
    ensures r == Result(NoError, input)
  {
    hide *;
    file := GzipCompress.Compress(input, level, mtime);
    MemberAlone(file, input);
    r := GzipDecompress.Decompress(file[2..]);
  }
}
