/** Bearer-token extraction from the `Authorization` header: the header is
    split on every single space, as JavaScript's `String.prototype.split(' ')`
    does, and the token is the second piece when it exists and is non-empty.
    The scheme word before it is never checked. */
module Header {
  import opened Lookup

  /** `s.split(sep)`: the maximal separator-free pieces between occurrences of
      `sep`, including empty pieces; the empty string splits into one empty piece. */
  function Split(s: string, sep: char): (parts: seq<string>)
    ensures |parts| >= 1
    ensures forall i :: 0 <= i < |parts| ==> sep !in parts[i]
    decreases |s|
  {
    if |s| == 0 then [""]
    else
      var rest := Split(s[1..], sep);
      if s[0] == sep then [""] + rest
      else [[s[0]] + rest[0]] + rest[1..]
  }

  /** The inverse of `Split`: the pieces glued back with `sep` between them. */
  function Join(parts: seq<string>, sep: char): string
    decreases |parts|
  {
    if |parts| == 0 then ""
    else if |parts| == 1 then parts[0]
    else parts[0] + [sep] + Join(parts[1..], sep)
  }

  /** `req.headers['authorization']?.split(' ')[1]`, kept only when truthy. */
  function ExtractToken(authorization: Option<string>): (token: Option<string>)
    ensures token.Some? ==> token.value != "" && ' ' !in token.value
  {
    match authorization
    case None => None
    case Some(h) =>
      var parts := Split(h, ' ');
      if |parts| < 2 || parts[1] == "" then None else Some(parts[1])
  }

  /** Prefixing the first piece with more characters extends that piece only. */
  lemma {:induction false} JoinExtendFirst(x: string, parts: seq<string>, sep: char)
    requires |parts| >= 1
    ensures Join([x + parts[0]] + parts[1..], sep) == x + Join(parts, sep)
  {
  }

  /** Gluing the pieces of a split gives back the original string. */
  lemma {:induction false} JoinSplit(s: string, sep: char)
    ensures Join(Split(s, sep), sep) == s
    decreases |s|
  {
    if |s| > 0 {
      var rest := Split(s[1..], sep);
      JoinSplit(s[1..], sep);
      if s[0] == sep {
        var ps := [""] + rest;
        assert ps[1..] == rest;
        assert Join(ps, sep) == "" + [sep] + Join(rest, sep);
        assert s == [s[0]] + s[1..];
      } else {
        JoinExtendFirst([s[0]], rest, sep);
        assert s == [s[0]] + s[1..];
      }
    }
  }

  /** A separator-free prefix joins the first piece of whatever follows it. */
  lemma {:induction false} SplitPrefix(a: string, s: string, sep: char)
    requires sep !in a
    ensures Split(a + s, sep) == [a + Split(s, sep)[0]] + Split(s, sep)[1..]
    decreases |a|
  {
    if |a| == 0 {
      assert a + s == s;
      var ps := Split(s, sep);
      assert a + ps[0] == ps[0];
      assert [ps[0]] + ps[1..] == ps;
    } else {
      var t := a + s;
      assert t[0] == a[0] && t[1..] == a[1..] + s;
      SplitPrefix(a[1..], s, sep);
      assert [a[0]] + (a[1..] + Split(s, sep)[0]) == a + Split(s, sep)[0];
    }
  }

  /** Splitting the glued pieces gives back the pieces, when none contains the separator. */
  lemma {:induction false} SplitJoin(parts: seq<string>, sep: char)
    requires |parts| >= 1
    requires forall i :: 0 <= i < |parts| ==> sep !in parts[i]
    ensures Split(Join(parts, sep), sep) == parts
    decreases |parts|
  {
    if |parts| == 1 {
      SplitPrefix(parts[0], "", sep);
      assert parts[0] + "" == parts[0];
    } else {
      var j := Join(parts[1..], sep);
      SplitJoin(parts[1..], sep);
      var t := [sep] + j;
      assert t[0] == sep && t[1..] == j;
      assert Split(t, sep) == [""] + parts[1..];
      SplitPrefix(parts[0], t, sep);
      assert parts[0] + [sep] + j == parts[0] + t;
      assert parts[0] + "" == parts[0];
      assert [parts[0]] + parts[1..] == parts;
    }
  }

  /** For a header made of space-free pieces, the token is exactly the second piece,
      provided there is one and it is non-empty. */
  lemma ExtractTokenOfPieces(parts: seq<string>)
    requires |parts| >= 1
    requires forall i :: 0 <= i < |parts| ==> ' ' !in parts[i]
    ensures ExtractToken(Some(Join(parts, ' ')))
            == (if |parts| >= 2 && parts[1] != "" then Some(parts[1]) else None)
  {
    SplitJoin(parts, ' ');
  }

  /** Whatever word stands before the space, a space-free non-empty token after it
      is extracted unchanged: the scheme is not checked. */
  lemma BearerTokenExtracted(scheme: string, token: string)
    requires ' ' !in scheme
    requires token != "" && ' ' !in token
    ensures ExtractToken(Some(scheme + " " + token)) == Some(token)
  {
    var parts := [scheme, token];
    assert parts[1..] == [token];
    assert Join(parts, ' ') == scheme + " " + token;
    ExtractTokenOfPieces(parts);
  }

  /** Conversely, an extracted token is the piece right after the first space:
      the header is a space-free word, a space, the token, and either nothing
      or a space followed by the rest. */
  lemma ExtractedTokenPosition(h: string, token: string) returns (scheme: string, rest: string)
    requires ExtractToken(Some(h)) == Some(token)
    ensures h == scheme + " " + token + rest
    ensures ' ' !in scheme
    ensures rest == "" || rest[0] == ' '
  {
    var parts := Split(h, ' ');
    JoinSplit(h, ' ');
    scheme := parts[0];
    var tail := parts[1..];
    assert tail[0] == token;
    rest := if |tail| == 1 then "" else " " + Join(tail[1..], ' ');
    assert Join(tail, ' ') == token + rest;
    assert Join(parts, ' ') == scheme + " " + Join(tail, ' ');
  }
}
