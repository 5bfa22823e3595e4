/** Strings as the decoders store them: the UTF-8 bytes of a Rust `String`.

    `String::from_utf8` accepts exactly the well-formed UTF-8 sequences
    (section 3 of RFC 3629: no overlong forms, no surrogates, nothing above
    U+10FFFF).  `s.replace(char::from(0), "")` removes every U+0000; the only
    UTF-8 sequence that contains a zero byte is the one-byte encoding of
    U+0000, so on the bytes it removes every 0x00 byte. */
module Text {
  import opened Bytes

  /** The bytes of a decoded string. */
  type Str = seq<byte>

  predicate IsContinuation(b: byte) {
    0x80 <= b <= 0xBF
  }

  /** Second byte of a three-byte sequence led by b0. */
  predicate SecondOf3(b0: byte, b1: byte) {
    if b0 == 0xE0 then 0xA0 <= b1 <= 0xBF
    else if b0 == 0xED then 0x80 <= b1 <= 0x9F
    else IsContinuation(b1)
  }

  /** Second byte of a four-byte sequence led by b0. */
  predicate SecondOf4(b0: byte, b1: byte) {
    if b0 == 0xF0 then 0x90 <= b1 <= 0xBF
    else if b0 == 0xF4 then 0x80 <= b1 <= 0x8F
    else IsContinuation(b1)
  }

  /** The length of the well-formed character at the head of s, or 0 when
      s does not start with one. */
  function CharLen(s: seq<byte>): (n: nat)
    requires |s| > 0
    ensures n <= 4 && n <= |s|
  {
    var b0 := s[0];
    if b0 <= 0x7F then 1
    else if 0xC2 <= b0 <= 0xDF then
      (if |s| >= 2 && IsContinuation(s[1]) then 2 else 0)
    else if 0xE0 <= b0 <= 0xEF then
      (if |s| >= 3 && SecondOf3(b0, s[1]) && IsContinuation(s[2]) then 3 else 0)
    else if 0xF0 <= b0 <= 0xF4 then
      (if |s| >= 4 && SecondOf4(b0, s[1]) && IsContinuation(s[2]) && IsContinuation(s[3]) then 4 else 0)
    else 0
  }

  /** s is a sequence of well-formed UTF-8 characters. */
  predicate ValidUtf8(s: seq<byte>)
    decreases |s|
  {
    |s| == 0 || (CharLen(s) > 0 && ValidUtf8(s[CharLen(s)..]))
  }

  /** The bytes hold no zero byte, that is, the string holds no U+0000. */
  predicate NoNul(s: seq<byte>) {
    forall i :: 0 <= i < |s| ==> s[i] != 0
  }

  /** Removes every 0x00 byte and keeps the others in order. */
  function StripNul(s: seq<byte>): (r: seq<byte>)
    ensures NoNul(r)
  {
    if s == [] then []
    else
      assert s == [s[0]] + s[1..];
      (if s[0] == 0 then [] else [s[0]]) + StripNul(s[1..])
  }

  /** Stripping removes every zero byte and keeps each other byte as many
      times as s holds it. */
  lemma {:induction false} StripNulMultiset(s: seq<byte>)
    ensures multiset(StripNul(s)) == multiset(s)[0 := 0]
  {
    if s != [] {
      StripNulMultiset(s[1..]);
      assert s == [s[0]] + s[1..];
      assert multiset(s) == multiset([s[0]]) + multiset(s[1..]);
    }
  }

  /** Stripping works byte by byte, so it distributes over concatenation and
      keeps the order of what it keeps. */
  lemma {:induction false} StripNulAppend(a: seq<byte>, b: seq<byte>)
    ensures StripNul(a + b) == StripNul(a) + StripNul(b)
  {
    if a == [] {
      assert a + b == b;
    } else {
      var head := if a[0] == 0 then [] else [a[0]];
      assert (a + b)[0] == a[0];
      assert (a + b)[1..] == a[1..] + b;
      calc {
        StripNul(a + b);
        head + StripNul(a[1..] + b);
        { StripNulAppend(a[1..], b); }
        head + (StripNul(a[1..]) + StripNul(b));
        (head + StripNul(a[1..])) + StripNul(b);
      }
    }
  }

  /** A string without NUL characters is stored unchanged, and stripping twice
      is stripping once. */
  lemma {:induction false} StripNulIdentity(s: seq<byte>)
    ensures StripNul(s) == s <==> NoNul(s)
    ensures StripNul(StripNul(s)) == StripNul(s)
  {
    if NoNul(s) {
      StripNulNoNul(s);
    }
    StripNulNoNul(StripNul(s));
  }

  lemma {:induction false} StripNulNoNul(s: seq<byte>)
    requires NoNul(s)
    ensures StripNul(s) == s
  {
    if s != [] {
      StripNulNoNul(s[1..]);
    }
  }

  /** Stripping NULs from a valid string leaves a valid string: the value the
      decoders store after `replace` is still a Rust `String`. */
  lemma {:induction false} StripNulKeepsUtf8(s: seq<byte>)
    requires ValidUtf8(s)
    ensures ValidUtf8(StripNul(s))
    decreases |s|
  {
    if s != [] {
      var n := CharLen(s);
      var head, rest := s[..n], s[n..];
      assert ValidUtf8(rest);
      StripNulKeepsUtf8(rest);
      assert s == head + rest;
      StripNulAppend(head, rest);
      if n == 1 && s[0] == 0 {
        assert head == [0];
        assert StripNul(head) == [] + StripNul([]);
        assert StripNul(s) == StripNul(rest);
      } else {
        CharHasNoNul(s);
        StripNulNoNul(head);
        CharLenPrefix(s, n, StripNul(rest));
        assert StripNul(s) == head + StripNul(rest);
      }
    }
  }

  /** Only the one-byte character U+0000 contains a zero byte. */
  lemma CharHasNoNul(s: seq<byte>)
    requires |s| > 0 && CharLen(s) > 0
    requires CharLen(s) > 1 || s[0] != 0
    ensures forall i :: 0 <= i < CharLen(s) ==> s[..CharLen(s)][i] != 0
  {
    var n := CharLen(s);
    if n > 1 {
      assert s[0] >= 0xC2;
      assert forall i :: 1 <= i < n ==> s[i] >= 0x80;
    }
  }

  /** A character followed by a valid string is a valid string. */
  lemma CharLenPrefix(s: seq<byte>, n: nat, t: seq<byte>)
    requires |s| > 0 && n == CharLen(s) && n > 0
    requires ValidUtf8(t)
    ensures ValidUtf8(s[..n] + t)
  {
    var u := s[..n] + t;
    assert u[..n] == s[..n];
    assert CharLen(u) == n;
    assert u[n..] == t;
  }
}
