/** The shape check login applies to the sign-in reply (script.js:37).
    A JSON Web Token in compact serialisation is three segments joined by '.'
    (RFC 7519, section 3; RFC 7515, section 7.1); the page checks only that
    structure and neither decodes nor verifies any segment. */
module Token {

  const Dot: char := '.'

  /** `s.split(sep)` for a one-character separator: the maximal runs between
      separators, in order, including empty ones; "".split(sep) is [""]. */
  function Split(s: string, sep: char): (parts: seq<string>)
    ensures |parts| >= 1
    ensures forall p :: p in parts ==> sep !in p
  {
    if s == [] then [[]]
    else
      var rest := Split(s[1..], sep);
      if s[0] == sep then [[]] + rest
      else [[s[0]] + rest[0]] + rest[1..]
  }

  /** The number of occurrences of `c` in `s`. */
  function Count(s: string, c: char): nat {
    if s == [] then 0 else (if s[0] == c then 1 else 0) + Count(s[1..], c)
  }

  /** `parts.join(sep)`. */
  function Join(parts: seq<string>, sep: char): string
    requires |parts| >= 1
  {
    if |parts| == 1 then parts[0] else parts[0] + [sep] + Join(parts[1..], sep)
  }

  /** Splitting yields one part more than there are separators. */
  lemma {:induction false} SplitCount(s: string, sep: char)
    ensures |Split(s, sep)| == Count(s, sep) + 1
  {
    if s != [] {
      SplitCount(s[1..], sep);
    }
  }

  /** Joining the parts with the separator gives the string back. */
  lemma {:induction false} JoinSplit(s: string, sep: char)
    ensures Join(Split(s, sep), sep) == s
  {
    if s != [] {
      JoinSplit(s[1..], sep);
      var rest := Split(s[1..], sep);
      if s[0] == sep {
        assert Split(s, sep)[1..] == rest;
      } else if |rest| == 1 {
        assert Join(Split(s, sep), sep) == [s[0]] + rest[0];
      } else {
        assert Split(s, sep)[1..] == rest[1..];
        assert Join(rest, sep) == rest[0] + [sep] + Join(rest[1..], sep);
      }
    }
  }

  /** A string without the separator splits into itself alone. */
  lemma {:induction false} SplitPlain(p: string, sep: char)
    requires sep !in p
    ensures Split(p, sep) == [p]
  {
    if p != [] {
      assert sep !in p[1..];
      SplitPlain(p[1..], sep);
      assert [p[0]] + p[1..] == p;
    }
  }

  /** A separator-free prefix followed by the separator is the first part. */
  lemma {:induction false} SplitPrefix(p: string, sep: char, rest: string)
    requires sep !in p
    ensures Split(p + [sep] + rest, sep) == [p] + Split(rest, sep)
  {
    if p == [] {
      assert p + [sep] + rest == [sep] + rest;
      assert ([sep] + rest)[1..] == rest;
    } else {
      assert sep !in p[1..];
      SplitPrefix(p[1..], sep, rest);
      assert (p + [sep] + rest)[1..] == p[1..] + [sep] + rest;
      assert [p[0]] + p[1..] == p;
    }
  }

  /** Separator-free parts joined and split again come back unchanged. */
  lemma {:induction false} SplitJoin(parts: seq<string>, sep: char)
    requires |parts| >= 1
    requires forall p :: p in parts ==> sep !in p
    ensures Split(Join(parts, sep), sep) == parts
  {
    if |parts| == 1 {
      SplitPlain(parts[0], sep);
    } else {
      assert forall p :: p in parts[1..] ==> p in parts;
      SplitJoin(parts[1..], sep);
      SplitPrefix(parts[0], sep, Join(parts[1..], sep));
    }
  }

  /** `token && token.split('.').length === 3`: the reply is a non-empty string
      with exactly two dots. */
  function WellFormed(token: string): (ok: bool)
    ensures ok <==> token != [] && Count(token, Dot) == 2
  {
    SplitCount(token, Dot);
    token != [] && |Split(token, Dot)| == 3
  }

  /** An accepted token is three dot-free segments joined by dots. */
  lemma AcceptedHasThreeSegments(token: string)
    requires WellFormed(token)
    ensures var parts := Split(token, Dot);
      |parts| == 3 && Dot !in parts[0] && Dot !in parts[1] && Dot !in parts[2] &&
      token == parts[0] + [Dot] + parts[1] + [Dot] + parts[2]
  {
    var parts := Split(token, Dot);
    SplitCount(token, Dot);
    JoinSplit(token, Dot);
    assert parts[1..][1..] == [parts[2]];
    assert Join(parts[1..], Dot) == parts[1] + [Dot] + parts[2];
    assert Join(parts, Dot) == parts[0] + [Dot] + (parts[1] + [Dot] + parts[2]);
  }

  /** Every three dot-free segments joined by dots are accepted, empty ones included. */
  lemma ThreeSegmentsAccepted(header: string, payload: string, signature: string)
    requires Dot !in header && Dot !in payload && Dot !in signature
    ensures WellFormed(header + [Dot] + payload + [Dot] + signature)
  {
    var parts := [header, payload, signature];
    assert parts[1..] == [payload, signature] && parts[1..][1..] == [signature];
    assert Join(parts[1..], Dot) == payload + [Dot] + signature;
    assert Join(parts, Dot) == header + [Dot] + (payload + [Dot] + signature);
    assert header + [Dot] + (payload + [Dot] + signature) == header + [Dot] + payload + [Dot] + signature;
    SplitJoin(parts, Dot);
  }

  /** ".." is accepted; "", "a.b" and "a.b.c.d" are rejected. */
  lemma ShapeExamples()
    ensures WellFormed("..")
    ensures !WellFormed("") && !WellFormed("a.b") && !WellFormed("a.b.c.d")
  {
    ThreeSegmentsAccepted("", "", "");
    assert "" + [Dot] + "" + [Dot] + "" == "..";
    assert Count("a.b", Dot) == 1;
    assert Count("a.b.c.d", Dot) == 3;
  }
}
