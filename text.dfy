/** The string rules the FTP session relies on: Spring's `Assert.hasText`
    (through `Character.isWhitespace`), Java's `String.trim`, and the
    tokenizing of a remote path on `/` done by Spring's
    `StringUtils.tokenizeToStringArray` with trimming and empty tokens dropped. */
module Text {
  import opened Lang

  /** The remote file separator used by `mkdir`. */
  const Separator: char := '/'

  /** Java's `Character.isWhitespace` as in Java 5 to 8 (Unicode up to 6.2):
      the ASCII controls TAB..CR and FS..US, and the Unicode space, line and
      paragraph separators other than the non-breaking ones (U+00A0, U+2007,
      U+202F), U+180E included. */
  predicate IsWhitespace(c: char)
  {
    c == ' ' || ('\t' <= c <= '\r') || ('\U{1C}' <= c <= '\U{1F}')
    || c == '\U{1680}' || c == '\U{180E}' || ('\U{2000}' <= c <= '\U{2006}') || ('\U{2008}' <= c <= '\U{200A}')
    || c == '\U{2028}' || c == '\U{2029}' || c == '\U{205F}' || c == '\U{3000}'
  }

  /** Spring's `hasText`: not null, and at least one non-whitespace character. */
  predicate HasText(s: Option<string>)
  {
    s.Some? && exists i :: 0 <= i < |s.value| && !IsWhitespace(s.value[i])
  }

  /** `t` occurs in `s` as a contiguous substring. */
  ghost predicate Contains(s: string, t: string)
  {
    exists i :: 0 <= i <= |s| && t <= s[i..]
  }

  lemma ContainsSuffix(a: string, t: string)
    ensures Contains(a + t, t)
  {
    assert t <= (a + t)[|a|..];
  }

  lemma ContainsExtend(s: string, t: string, b: string)
    requires Contains(s, t)
    ensures Contains(s + b, t)
  {
    var i :| 0 <= i <= |s| && t <= s[i..];
    assert s[i..] <= (s + b)[i..];
  }

  /** The characters `String.trim` strips: code points up to U+0020. */
  predicate Blank(c: char)
  {
    c <= ' '
  }

  /** Neither end of `s` is a character that `trim` would strip. */
  predicate IsTrimmed(s: string)
  {
    s == [] || (!Blank(s[0]) && !Blank(s[|s| - 1]))
  }

  /** `r` is `s` with a run of blanks cut off the front and a run cut off
      the back, and nothing else changed. */
  ghost predicate StripsBlankEnds(s: string, r: string)
  {
    exists i, j :: 0 <= i <= j <= |s| && r == s[i..j] && BlankOutside(s, i, j)
  }

  /** Every character of `s` before `i` and from `j` on is blank. */
  predicate BlankOutside(s: string, i: nat, j: nat)
    requires i <= j <= |s|
  {
    (forall k :: 0 <= k < i ==> Blank(s[k])) && (forall k :: j <= k < |s| ==> Blank(s[k]))
  }

  /** Java's `String.trim`. */
  function Trim(s: string): (r: string)
    ensures IsTrimmed(r)
    ensures forall c :: c in r ==> c in s
    ensures r == [] <==> forall i :: 0 <= i < |s| ==> Blank(s[i])
    ensures IsTrimmed(s) ==> r == s
    decreases |s|
  {
    if s != [] && Blank(s[0]) then
      var r := Trim(s[1..]);
      assert forall i :: 1 <= i < |s| ==> s[i] == s[1..][i - 1];
      r
    else if s != [] && Blank(s[|s| - 1]) then
      var r := Trim(s[..|s| - 1]);
      assert forall i :: 0 <= i < |s| - 1 ==> s[i] == s[..|s| - 1][i];
      r
    else
      s
  }

  /** `trim` cuts off a leading and a trailing run of blanks and changes
      nothing else; with `IsTrimmed(Trim(s))` this fixes the result. */
  lemma TrimStripsBlankEnds(s: string)
    ensures StripsBlankEnds(s, Trim(s))
  {
    var i, j := TrimBounds(s);
    assert Trim(s) == s[i..j] && BlankOutside(s, i, j);
  }

  /** Where `trim` cuts `s`. */
  lemma {:induction false} TrimBounds(s: string) returns (i: nat, j: nat)
    ensures i <= j <= |s| && Trim(s) == s[i..j] && BlankOutside(s, i, j)
    decreases |s|
  {
    if s != [] && Blank(s[0]) {
      var t := s[1..];
      var i', j' := TrimBounds(t);
      i, j := i' + 1, j' + 1;
      assert t[i'..j'] == s[i..j];
      forall k | 1 <= k < |s|
        ensures s[k] == t[k - 1]
      {
      }
    } else if s != [] && Blank(s[|s| - 1]) {
      var t := s[..|s| - 1];
      i, j := TrimBounds(t);
      assert t[i..j] == s[i..j];
      forall k | 0 <= k < |t|
        ensures s[k] == t[k]
      {
      }
    } else {
      i, j := 0, |s|;
      assert s[0..|s|] == s;
    }
  }

  /** Splits `s` at every separator, keeping empty pieces: `"/a//b"` gives
      `["", "a", "", "b"]`. */
  function Split(s: string): (parts: seq<string>)
    ensures |parts| >= 1
    ensures forall p :: p in parts ==> Separator !in p
  {
    if s == [] then [""]
    else
      var rest := Split(s[1..]);
      if s[0] == Separator then [""] + rest
      else [[s[0]] + rest[0]] + rest[1..]
  }

  /** Puts the separator between consecutive pieces. */
  function Join(parts: seq<string>): (s: string)
  {
    if parts == [] then ""
    else if |parts| == 1 then parts[0]
    else parts[0] + [Separator] + Join(parts[1..])
  }

  /** Splitting loses nothing: joining the pieces gives the input back. */
  lemma {:induction false} JoinSplit(s: string)
    ensures Join(Split(s)) == s
  {
    if s != [] {
      var rest := Split(s[1..]);
      JoinSplit(s[1..]);
      if s[0] == Separator {
        assert Split(s) == [""] + rest;
        assert ([""] + rest)[1..] == rest;
      } else {
        var parts := [[s[0]] + rest[0]] + rest[1..];
        assert Split(s) == parts;
        if |rest| == 1 {
          assert Join(parts) == [s[0]] + rest[0];
        } else {
          assert parts[1..] == rest[1..];
          assert Join(rest) == rest[0] + [Separator] + Join(rest[1..]);
        }
        assert s == [s[0]] + s[1..];
      }
    }
  }

  /** Splitting a separator-free piece followed by a tail glues the piece to
      the first piece of the tail. */
  lemma {:induction false} SplitPrepend(p: string, tail: string)
    requires Separator !in p
    ensures Split(p + tail) == [p + Split(tail)[0]] + Split(tail)[1..]
    decreases |p|
  {
    if p != [] {
      SplitPrepend(p[1..], tail);
      assert (p + tail)[1..] == p[1..] + tail;
      assert [p[0]] + (p[1..] + Split(tail)[0]) == p + Split(tail)[0];
    } else {
      var st := Split(tail);
      assert p + tail == tail;
      assert st == [st[0]] + st[1..];
      assert p + st[0] == st[0];
    }
  }

  /** Joining separator-free pieces and splitting again gives the pieces back. */
  lemma {:induction false} SplitJoin(parts: seq<string>)
    requires |parts| >= 1
    requires forall p :: p in parts ==> Separator !in p
    ensures Split(Join(parts)) == parts
  {
    var p := parts[0];
    if |parts| == 1 {
      SplitPrepend(p, "");
      assert p + "" == p;
    } else {
      var rest := parts[1..];
      assert forall q :: q in rest ==> q in parts;
      SplitJoin(rest);
      var tail := [Separator] + Join(rest);
      assert Join(parts) == p + tail;
      SplitPrepend(p, tail);
      assert tail[0] == Separator && tail[1..] == Join(rest);
      assert Split(tail) == [""] + rest;
      assert Split(tail)[0] == "" && Split(tail)[1..] == rest;
      assert p + "" == p;
      assert parts == [p] + rest;
    }
  }

  /** One step of `Split`: a leading separator closes an empty piece, any
      other character joins the first piece. */
  lemma SplitCons(c: char, x: string)
    ensures Split([c] + x) == if c == Separator then [""] + Split(x) else [[c] + Split(x)[0]] + Split(x)[1..]
  {
    assert ([c] + x)[1..] == x;
  }

  /** Splitting at one separator splits each side on its own. */
  lemma {:induction false} SplitAround(a: string, b: string)
    ensures Split(a + [Separator] + b) == Split(a) + Split(b)
    decreases |a|
  {
    if a == [] {
      assert a + [Separator] + b == [Separator] + b;
      SplitCons(Separator, b);
    } else {
      var c := a[0];
      var t := a[1..] + [Separator] + b;
      var inner := Split(a[1..]);
      var after := Split(b);
      assert Split(t) == inner + after by {
        SplitAround(a[1..], b);
      }
      assert Split(a + [Separator] + b) == Split([c] + t) by {
        assert a + [Separator] + b == [c] + t;
      }
      assert Split(a) == Split([c] + a[1..]) by {
        assert a == [c] + a[1..];
      }
      SplitCons(c, t);
      SplitCons(c, a[1..]);
      ConsPieces(c, inner, after);
    }
  }

  /** The sequence algebra behind `SplitAround`: gluing a character onto
      the first piece commutes with appending more pieces. */
  lemma ConsPieces(c: char, x: seq<string>, y: seq<string>)
    requires |x| >= 1
    ensures [[c] + (x + y)[0]] + (x + y)[1..] == ([[c] + x[0]] + x[1..]) + y
    ensures [""] + (x + y) == ([""] + x) + y
  {
    assert (x + y)[0] == x[0];
    assert (x + y)[1..] == x[1..] + y;
  }

  /** A path segment as `mkdir` receives it: non-empty, trimmed, free of separators. */
  predicate IsSegment(t: string)
  {
    t != [] && IsTrimmed(t) && Separator !in t
  }

  /** Trims every piece and drops the ones that end up empty. */
  function Tokens(parts: seq<string>): (tokens: seq<string>)
    requires forall p :: p in parts ==> Separator !in p
    ensures |tokens| <= |parts|
    ensures forall t :: t in tokens ==> IsSegment(t)
    ensures (forall p :: p in parts ==> IsSegment(p)) ==> tokens == parts
  {
    if parts == [] then []
    else
      var t := Trim(parts[0]);
      assert parts[0] in parts;
      assert forall p :: p in parts[1..] ==> p in parts;
      var rest := Tokens(parts[1..]);
      assert parts == [parts[0]] + parts[1..];
      if t == [] then rest else [t] + rest
  }

  /** `StringUtils.tokenizeToStringArray(s, "/")`: the non-blank pieces
      between separators, each trimmed, in order. */
  function Tokenize(s: string): (segments: seq<string>)
    ensures forall t :: t in segments ==> IsSegment(t)
  {
    Tokens(Split(s))
  }

  /** Tokens of consecutive runs of pieces are the runs' tokens in order. */
  lemma {:induction false} TokensConcat(x: seq<string>, y: seq<string>)
    requires forall p :: p in x ==> Separator !in p
    requires forall p :: p in y ==> Separator !in p
    ensures Tokens(x + y) == Tokens(x) + Tokens(y)
  {
    if x == [] {
      assert x + y == y;
    } else {
      assert (x + y)[0] == x[0] && (x + y)[1..] == x[1..] + y;
      assert forall p :: p in x[1..] ==> p in x;
      TokensConcat(x[1..], y);
    }
  }

  /** A path without separators is one token, its trimmed text, unless it is
      all blank. */
  lemma TokenizePiece(p: string)
    requires Separator !in p
    ensures Tokenize(p) == if Trim(p) == [] then [] else [Trim(p)]
  {
    SplitPrepend(p, "");
    assert p + "" == p;
  }

  /** Tokenizing a path around one separator tokenizes each side on its own. */
  lemma TokenizeConcat(a: string, b: string)
    ensures Tokenize(a + [Separator] + b) == Tokenize(a) + Tokenize(b)
  {
    SplitAround(a, b);
    TokensConcat(Split(a), Split(b));
  }

  /** Tokenizing undoes joining: the segments of a path written as
      `s1/s2/.../sn` are exactly `s1, ..., sn`. */
  lemma TokenizeJoin(segments: seq<string>)
    requires forall t :: t in segments ==> IsSegment(t)
    ensures Tokenize(Join(segments)) == segments
  {
    if segments == [] {
      assert Split("") == [""];
      assert Trim("") == "";
    } else {
      SplitJoin(segments);
    }
  }
}
