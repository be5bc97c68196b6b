/** internal/keyenc: the escaping every composite key is built from. */
module KeyEnc {
  import opened Common
  import opened Bytes

  const PERCENT: byte := 0x25

  // kept: letters, digits, '_' and '-' are written as themselves.
  predicate Kept(b: byte) {
    0x61 <= b <= 0x7A || 0x41 <= b <= 0x5A || 0x30 <= b <= 0x39 || b == 0x5F || b == 0x2D
  }

  predicate AllKept(s: Bytes) {
    forall i :: 0 <= i < |s| ==> Kept(s[i])
  }

  // What checkSep lets separate fields: a byte Escape never writes, and ASCII.
  predicate LegalSep(sep: byte) {
    !Kept(sep) && sep != PERCENT && sep < 0x80
  }

  // upperHex
  function HexDigit(n: int): (c: byte)
    requires 0 <= n < 16
    ensures Kept(c) && (0x30 <= c <= 0x39 || 0x41 <= c <= 0x46)
  {
    if n < 10 then 0x30 + n else 0x37 + n
  }

  function HexValue(c: byte): (n: Option<int>)
    ensures n.Some? ==> 0 <= n.value < 16
  {
    if 0x30 <= c <= 0x39 then Some(c - 0x30)
    else if 0x41 <= c <= 0x46 then Some(c - 0x37)
    else if 0x61 <= c <= 0x66 then Some(c - 0x57)
    else None
  }

  function EscapeByte(b: byte): (r: Bytes)
    ensures 1 <= |r| <= 3
    ensures forall i :: 0 <= i < |r| ==> Kept(r[i]) || r[i] == PERCENT
  {
    if Kept(b) then [b] else [PERCENT, HexDigit(b / 16), HexDigit(b % 16)]
  }

  function Escape(s: Bytes): (r: Bytes)
    ensures |s| <= |r| <= 3 * |s|
    ensures forall i :: 0 <= i < |r| ==> Kept(r[i]) || r[i] == PERCENT
  {
    if s == [] then [] else EscapeByte(s[0]) + Escape(s[1..])
  }

  // url.PathUnescape (section 2.1 of RFC 3986): %XX in either hex case decodes,
  // a '%' without two hex digits is an error, any other byte reads as itself.
  function Unescape(s: Bytes): (r: Result<Bytes>)
    decreases |s|
  {
    if s == [] then Ok([])
    else if s[0] != PERCENT then
      match Unescape(s[1..])
      case Ok(t) => Ok([s[0]] + t)
      case Err => Err
    else if |s| < 3 || HexValue(s[1]).None? || HexValue(s[2]).None? then Err
    else
      match Unescape(s[3..])
      case Ok(t) => Ok([HexValue(s[1]).value * 16 + HexValue(s[2]).value] + t)
      case Err => Err
  }

  // strings.Split on a one-byte separator.
  function SplitOn(s: Bytes, sep: byte): (r: seq<Bytes>)
    ensures |r| >= 1
  {
    if s == [] then [[]]
    else
      var r := SplitOn(s[1..], sep);
      if s[0] == sep then [[]] + r else [[s[0]] + r[0]] + r[1..]
  }

  function JoinParts(parts: seq<Bytes>, sep: byte): (r: Bytes)
    requires |parts| >= 1
  {
    if |parts| == 1 then parts[0] else parts[0] + [sep] + JoinParts(parts[1..], sep)
  }

  function EscapeAll(fields: seq<Bytes>): (r: seq<Bytes>)
    ensures |r| == |fields|
    ensures forall i :: 0 <= i < |r| ==> r[i] == Escape(fields[i])
  {
    seq(|fields|, i requires 0 <= i < |fields| => Escape(fields[i]))
  }

  function Join(sep: byte, fields: seq<Bytes>): (r: Bytes)
    requires LegalSep(sep) && |fields| >= 1
  {
    JoinParts(EscapeAll(fields), sep)
  }

  function UnescapeAll(parts: seq<Bytes>): (r: Result<seq<Bytes>>)
  {
    if parts == [] then Ok([])
    else
      match (Unescape(parts[0]), UnescapeAll(parts[1..]))
      case (Ok(f), Ok(rest)) => Ok([f] + rest)
      case _ => Err
  }

  function Split(key: Bytes, sep: byte): (r: Result<seq<Bytes>>)
    requires LegalSep(sep)
  {
    UnescapeAll(SplitOn(key, sep))
  }

  // A string's bytes, for text that is plain ASCII.
  function Chars(s: string): (r: Bytes)
    requires forall i :: 0 <= i < |s| ==> s[i] < '\U{80}'
    ensures |r| == |s| && forall i :: 0 <= i < |s| ==> r[i] == s[i] as int
  {
    seq(|s|, i requires 0 <= i < |s| => s[i] as int)
  }

  // A '%' that two hex digits of either case do not follow.
  predicate Malformed(s: Bytes, i: nat) {
    i < |s| && s[i] as char == '%' && (i + 2 >= |s| || !IsHex(s[i + 1] as char) || !IsHex(s[i + 2] as char))
  }

  predicate IsHex(c: char) {
    '0' <= c <= '9' || 'a' <= c <= 'f' || 'A' <= c <= 'F'
  }

  // Unescaping fails exactly where there is one.
  lemma {:induction false} UnescapeFailsExactly(s: Bytes)
    ensures Unescape(s).Err? <==> exists i: nat :: Malformed(s, i)
    decreases |s|
  {
    if s != [] {
      var n := if s[0] == PERCENT && !Malformed(s, 0) then 3 else 1;
      UnescapeFailsExactly(s[n..]);
      assert forall i: nat :: Malformed(s[n..], i) <==> Malformed(s, i + n);
      if i: nat :| Malformed(s, i) {
        if i >= n {
          assert Malformed(s[n..], i - n);
        }
      }
      if i: nat :| Malformed(s[n..], i) {
        assert Malformed(s, i + n);
      }
    }
  }

  // What is written as itself: letters, digits, '_' and '-', and nothing else.
  lemma {:induction false} PlainExactly(s: Bytes)
    ensures Escape(s) == s <==> forall i :: 0 <= i < |s| ==>
      var c := s[i] as char;
      'a' <= c <= 'z' || 'A' <= c <= 'Z' || '0' <= c <= '9' || c == '_' || c == '-'
  {
    if s != [] {
      PlainExactly(s[1..]);
      assert s == [s[0]] + s[1..];
      if Kept(s[0]) {
        assert Escape(s) == [s[0]] + Escape(s[1..]);
        assert Escape(s)[1..] == Escape(s[1..]);
      } else {
        assert Escape(s)[0] == PERCENT;
      }
    }
  }

  /******* The round trip *******/

  lemma HexRoundTrip(b: byte)
    ensures HexValue(HexDigit(b / 16)) == Some(b / 16)
    ensures HexValue(HexDigit(b % 16)) == Some(b % 16)
    ensures b / 16 * 16 + b % 16 == b
  {}

  lemma {:induction false} UnescapeTriple(b: byte, rest: Bytes)
    requires !Kept(b)
    ensures Unescape(EscapeByte(b) + rest) == match Unescape(rest) case Ok(r) => Ok([b] + r) case Err => Err
  {
    HexRoundTrip(b);
    var e := EscapeByte(b) + rest;
    assert e[0] == PERCENT && e[1] == HexDigit(b / 16) && e[2] == HexDigit(b % 16) && e[3..] == rest;
  }

  lemma {:induction false} UnescapeEscape(s: Bytes)
    ensures Unescape(Escape(s)) == Ok(s)
  {
    if s != [] {
      var rest := Escape(s[1..]);
      var e := Escape(s);
      UnescapeEscape(s[1..]);
      assert s == [s[0]] + s[1..];
      if Kept(s[0]) {
        assert e[1..] == rest;
      } else {
        UnescapeTriple(s[0], rest);
      }
    }
  }

  lemma {:induction false} EscapeInjective(s: Bytes, t: Bytes)
    requires Escape(s) == Escape(t)
    ensures s == t
  {
    UnescapeEscape(s);
    UnescapeEscape(t);
  }

  // A field of kept bytes is its own escaped form.
  lemma {:induction false} EscapeOfKept(s: Bytes)
    requires AllKept(s)
    ensures Escape(s) == s
  {
    if s != [] {
      EscapeOfKept(s[1..]);
      assert s == [s[0]] + s[1..];
    }
  }

  lemma {:induction false} SplitOnPrefix(head: Bytes, tail: Bytes, sep: byte)
    requires sep !in head
    ensures SplitOn(head + [sep] + tail, sep) == [head] + SplitOn(tail, sep)
  {
    var whole := head + [sep] + tail;
    if head == [] {
      assert whole[1..] == tail;
    } else {
      assert whole[1..] == head[1..] + [sep] + tail;
      SplitOnPrefix(head[1..], tail, sep);
      assert head == [head[0]] + head[1..];
    }
  }

  lemma {:induction false} SplitOnWhole(s: Bytes, sep: byte)
    requires sep !in s
    ensures SplitOn(s, sep) == [s]
  {
    if s != [] {
      SplitOnWhole(s[1..], sep);
      assert s == [s[0]] + s[1..];
    }
  }

  // Parts that hold no separator split back apart.
  lemma {:induction false} SplitJoinParts(parts: seq<Bytes>, sep: byte)
    requires |parts| >= 1
    requires forall i :: 0 <= i < |parts| ==> sep !in parts[i]
    ensures SplitOn(JoinParts(parts, sep), sep) == parts
  {
    if |parts| == 1 {
      SplitOnWhole(parts[0], sep);
    } else {
      SplitJoinParts(parts[1..], sep);
      SplitOnPrefix(parts[0], JoinParts(parts[1..], sep), sep);
      assert parts == [parts[0]] + parts[1..];
    }
  }

  lemma {:induction false} UnescapeAllEscapeAll(fields: seq<Bytes>)
    ensures UnescapeAll(EscapeAll(fields)) == Ok(fields)
  {
    if fields != [] {
      UnescapeAllEscapeAll(fields[1..]);
      UnescapeEscape(fields[0]);
      assert EscapeAll(fields)[1..] == EscapeAll(fields[1..]);
      assert fields == [fields[0]] + fields[1..];
    }
  }

  lemma SplitJoin(sep: byte, fields: seq<Bytes>)
    requires LegalSep(sep) && |fields| >= 1
    ensures Split(Join(sep, fields), sep) == Ok(fields)
  {
    SplitJoinParts(EscapeAll(fields), sep);
    UnescapeAllEscapeAll(fields);
  }

  lemma JoinInjective(sep: byte, f: seq<Bytes>, g: seq<Bytes>)
    requires LegalSep(sep) && |f| >= 1 && |g| >= 1
    requires Join(sep, f) == Join(sep, g)
    ensures f == g
  {
    SplitJoin(sep, f);
    SplitJoin(sep, g);
  }

  // A join holds nothing but kept bytes, '%' and its own separator.
  lemma {:induction false} JoinBytes(sep: byte, fields: seq<Bytes>, c: byte)
    requires LegalSep(sep) && |fields| >= 1
    requires c in Join(sep, fields)
    ensures Kept(c) || c == PERCENT || c == sep
  {
    if |fields| > 1 {
      assert EscapeAll(fields)[1..] == EscapeAll(fields[1..]);
      assert Join(sep, fields) == Escape(fields[0]) + [sep] + Join(sep, fields[1..]);
      if c in Join(sep, fields[1..]) {
        JoinBytes(sep, fields[1..], c);
      }
    }
  }

  // A verbatim head that holds no separator leads a key apart from its tail.
  lemma HeadTail(h1: Bytes, t1: Bytes, h2: Bytes, t2: Bytes, sep: byte)
    requires sep !in h1 && sep !in h2
    requires h1 + [sep] + t1 == h2 + [sep] + t2
    ensures h1 == h2 && t1 == t2
  {
    SplitOnPrefix(h1, t1, sep);
    SplitOnPrefix(h2, t2, sep);
    assert h1 == ([h1] + SplitOn(t1, sep))[0];
    assert h2 == ([h2] + SplitOn(t2, sep))[0];
    var a, b := h1 + [sep] + t1, h2 + [sep] + t2;
    assert t1 == a[|h1| + 1..] && t2 == b[|h2| + 1..];
  }

  /******* The loops that fill buffers *******/

  lemma {:induction false} EscapeAppend(s: Bytes, t: Bytes)
    ensures Escape(s + t) == Escape(s) + Escape(t)
  {
    if s == [] {
      assert s + t == t;
      assert Escape(s) == [];
    } else {
      var st := s + t;
      assert st[1..] == s[1..] + t;
      calc {
        Escape(st);
        EscapeByte(st[0]) + Escape(st[1..]);
        { EscapeAppend(s[1..], t); }
        EscapeByte(s[0]) + (Escape(s[1..]) + Escape(t));
        (EscapeByte(s[0]) + Escape(s[1..])) + Escape(t);
        Escape(s) + Escape(t);
      }
    }
  }

  lemma EscapeNext(dst: Bytes, s: Bytes, i: nat)
    requires i < |s|
    ensures dst + Escape(s[..i + 1]) == dst + Escape(s[..i]) + EscapeByte(s[i])
  {
    EscapeAppend(s[..i], [s[i]]);
    assert s[..i + 1] == s[..i] + [s[i]];
    assert Escape([s[i]]) == EscapeByte(s[i]);
    Regroup(dst, Escape(s[..i]), EscapeByte(s[i]));
  }

  method AppendEscape(dst: Bytes, s: Bytes) returns (out: Bytes)
    ensures out == dst + Escape(s)
  {
    out := dst;
    for i := 0 to |s|
      invariant out == dst + Escape(s[..i])
    {
      var b := s[i];
      EscapeNext(dst, s, i);
      if Kept(b) {
        out := out + [b];
      } else {
        out := out + [PERCENT, HexDigit(b / 16), HexDigit(b % 16)];
      }
    }
    assert s[..|s|] == s;
  }

  // The scan for a byte that needs escaping: a field without one is returned as it is.
  method EscapeField(s: Bytes) returns (out: Bytes)
    ensures out == Escape(s)
  {
    for i := 0 to |s|
      invariant AllKept(s[..i])
    {
      if !Kept(s[i]) {
        out := AppendEscape([], s);
        return;
      }
    }
    assert s[..|s|] == s;
    EscapeOfKept(s);
    return s;
  }

  lemma {:induction false} JoinPartsAppend(parts: seq<Bytes>, last: Bytes, sep: byte)
    requires |parts| >= 1
    ensures JoinParts(parts + [last], sep) == JoinParts(parts, sep) + [sep] + last
  {
    if |parts| == 1 {
      assert (parts + [last])[1..] == [last];
    } else {
      JoinPartsAppend(parts[1..], last, sep);
      assert (parts + [last])[1..] == parts[1..] + [last];
    }
  }

  lemma JoinNext(sep: byte, fields: seq<Bytes>, i: nat)
    requires LegalSep(sep) && i < |fields|
    ensures i == 0 ==> Join(sep, fields[..i + 1]) == Escape(fields[i])
    ensures i > 0 ==> Join(sep, fields[..i + 1]) == Join(sep, fields[..i]) + [sep] + Escape(fields[i])
  {
    assert EscapeAll(fields[..i + 1]) == EscapeAll(fields[..i]) + [Escape(fields[i])];
    if i > 0 {
      JoinPartsAppend(EscapeAll(fields[..i]), Escape(fields[i]), sep);
    }
  }

  lemma Regroup(a: Bytes, b: Bytes, c: Bytes)
    ensures a + b + c == a + (b + c)
  {}

  method AppendJoin(dst: Bytes, sep: byte, fields: seq<Bytes>) returns (out: Bytes)
    requires LegalSep(sep) && |fields| >= 1
    ensures out == dst + Join(sep, fields)
  {
    out := dst;
    ghost var joined: Bytes := [];
    for i := 0 to |fields|
      invariant out == dst + joined
      invariant joined == if i == 0 then [] else Join(sep, fields[..i])
    {
      JoinNext(sep, fields, i);
      if i > 0 {
        out := out + [sep];
        Regroup(dst, joined, [sep]);
        joined := joined + [sep];
      }
      out := AppendEscape(out, fields[i]);
      Regroup(dst, joined, Escape(fields[i]));
      joined := joined + Escape(fields[i]);
    }
    assert fields[..|fields|] == fields;
  }

  lemma {:induction false} UnescapeAllAt(parts: seq<Bytes>, i: nat)
    requires i < |parts|
    ensures Unescape(parts[i]).Err? ==> UnescapeAll(parts).Err?
  {
    if i > 0 {
      UnescapeAllAt(parts[1..], i - 1);
    }
  }

  lemma {:induction false} UnescapeAllAppend(parts: seq<Bytes>, last: Bytes)
    requires UnescapeAll(parts).Ok? && Unescape(last).Ok?
    ensures UnescapeAll(parts + [last]) == Ok(UnescapeAll(parts).value + [Unescape(last).value])
  {
    if parts == [] {
      assert parts + [last] == [last] && [last][1..] == [];
      var l := Unescape(last).value;
      assert UnescapeAll([]) == Ok([]) && [l] + [] == [l] && [] + [l] == [l];
    } else {
      UnescapeAllAppend(parts[1..], last);
      assert (parts + [last])[0] == parts[0] && (parts + [last])[1..] == parts[1..] + [last];
      var f, rest, l := Unescape(parts[0]).value, UnescapeAll(parts[1..]).value, Unescape(last).value;
      assert [f] + (rest + [l]) == ([f] + rest) + [l];
    }
  }

  method SplitFields(key: Bytes, sep: byte) returns (r: Result<seq<Bytes>>)
    requires LegalSep(sep)
    ensures r == Split(key, sep)
  {
    var parts := SplitOn(key, sep);
    var out: seq<Bytes> := [];
    for i := 0 to |parts|
      invariant UnescapeAll(parts[..i]) == Ok(out)
    {
      var f := Unescape(parts[i]);
      if f.Err? {
        UnescapeAllAt(parts, i);
        return Err;
      }
      UnescapeAllAppend(parts[..i], parts[i]);
      assert parts[..i + 1] == parts[..i] + [parts[i]];
      out := out + [f.value];
    }
    assert parts[..|parts|] == parts;
    return Ok(out);
  }
}
