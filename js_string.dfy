/** The two JavaScript string operations the extension relies on:
    String.prototype.trim and String.prototype.split with a one-character
    separator, on strings modelled as sequences of characters.
 */
module JsString {

  type String = seq<char>

  /** The code points that trim removes: the ECMAScript WhiteSpace set
      (tab, vertical tab, form feed, space, no-break space, byte order mark
      and the Unicode space separators) and the LineTerminator set
      (line feed, carriage return, line separator, paragraph separator). */
  predicate IsWhitespace(c: char) {
    ('\t' <= c <= '\r') || c == ' ' || c == '\U{A0}' || c == '\U{1680}' ||
    ('\U{2000}' <= c <= '\U{200A}') || c == '\U{2028}' || c == '\U{2029}' ||
    c == '\U{202F}' || c == '\U{205F}' || c == '\U{3000}' || c == '\U{FEFF}'
  }

  predicate AllWhitespace(s: String) {
    forall i :: 0 <= i < |s| ==> IsWhitespace(s[i])
  }

  /** A string that trim leaves alone: empty, or neither end is whitespace. */
  predicate IsTrimmed(s: String) {
    s == [] || (!IsWhitespace(s[0]) && !IsWhitespace(s[|s| - 1]))
  }

  /** The string without its leading whitespace. */
  function TrimStart(s: String): String
    decreases |s|
  {
    if s != [] && IsWhitespace(s[0]) then TrimStart(s[1..]) else s
  }

  /** What TrimStart drops is whitespace and what it keeps is a suffix that
      does not start with whitespace. */
  lemma {:induction false} TrimStartSpec(s: String)
    ensures |TrimStart(s)| <= |s| && TrimStart(s) == s[|s| - |TrimStart(s)|..]
    ensures AllWhitespace(s[..|s| - |TrimStart(s)|])
    ensures TrimStart(s) == [] || !IsWhitespace(TrimStart(s)[0])
    decreases |s|
  {
    if s != [] && IsWhitespace(s[0]) {
      TrimStartSpec(s[1..]);
      var r := TrimStart(s[1..]);
      assert TrimStart(s) == r;
      assert s[..|s| - |r|] == [s[0]] + s[1..][..|s| - 1 - |r|];
    } else {
      assert s[..0] == [];
    }
  }

  /** The string without its trailing whitespace. */
  function TrimEnd(s: String): String
    decreases |s|
  {
    if s != [] && IsWhitespace(s[|s| - 1]) then TrimEnd(s[..|s| - 1]) else s
  }

  /** What TrimEnd drops is whitespace and what it keeps is a prefix that
      does not end with whitespace. */
  lemma {:induction false} TrimEndSpec(s: String)
    ensures |TrimEnd(s)| <= |s| && TrimEnd(s) == s[..|TrimEnd(s)|]
    ensures AllWhitespace(s[|TrimEnd(s)|..])
    ensures TrimEnd(s) == [] || !IsWhitespace(TrimEnd(s)[|TrimEnd(s)| - 1])
    decreases |s|
  {
    if s != [] && IsWhitespace(s[|s| - 1]) {
      var init, last := s[..|s| - 1], s[|s| - 1];
      TrimEndSpec(init);
      var r := TrimEnd(init);
      assert TrimEnd(s) == r;
      assert s == init + [last];
      DropLast(init, last, |r|);
    } else {
      assert s[|s|..] == [];
    }
  }

  /** Slicing a text with one more character at its end. */
  lemma DropLast(init: String, last: char, k: nat)
    requires k <= |init|
    ensures (init + [last])[..k] == init[..k]
    ensures (init + [last])[k..] == init[k..] + [last]
  {
  }

  /** String.prototype.trim. */
  function Trim(s: String): String {
    TrimEnd(TrimStart(s))
  }

  /** Trim keeps a middle part of the string: it neither starts nor ends
      with whitespace, holds only characters of the string, and is empty
      exactly when the string is blank. */
  lemma TrimSpec(s: String)
    ensures IsTrimmed(Trim(s))
    ensures forall c :: c in Trim(s) ==> c in s
    ensures Trim(s) == [] <==> AllWhitespace(s)
  {
    TrimLayout(s);
    TrimIsTrimmed(s);
    TrimKeepsCharacters(s);
    TrimEmptyIffBlank(s);
  }

  /** The trim is a prefix of the string without its leading whitespace. */
  lemma TrimLayout(s: String)
    ensures |TrimStart(s)| <= |s| && TrimStart(s) == s[|s| - |TrimStart(s)|..]
    ensures AllWhitespace(s[..|s| - |TrimStart(s)|])
    ensures TrimStart(s) == [] || !IsWhitespace(TrimStart(s)[0])
    ensures |Trim(s)| <= |TrimStart(s)| && Trim(s) == TrimStart(s)[..|Trim(s)|]
    ensures AllWhitespace(TrimStart(s)[|Trim(s)|..])
    ensures Trim(s) == [] || !IsWhitespace(Trim(s)[|Trim(s)| - 1])
  {
    TrimStartSpec(s);
    TrimEndSpec(TrimStart(s));
  }

  lemma TrimIsTrimmed(s: String)
    ensures IsTrimmed(Trim(s))
  {
    TrimLayout(s);
    var t, r := TrimStart(s), Trim(s);
    if r != [] {
      assert r[0] == t[0];
    }
  }

  lemma TrimKeepsCharacters(s: String)
    ensures forall c :: c in Trim(s) ==> c in s
  {
    TrimLayout(s);
    var t, r := TrimStart(s), Trim(s);
    forall c | c in r ensures c in s {
      assert c in t;
    }
  }

  lemma TrimEmptyIffBlank(s: String)
    ensures Trim(s) == [] <==> AllWhitespace(s)
  {
    TrimLayout(s);
    var t, r := TrimStart(s), Trim(s);
    var k := |s| - |t|;
    if r == [] {
      assert t == t[|r|..];
      assert t == [];
      assert s == s[..k];
    } else {
      assert r[0] == t[0] == s[k];
    }
  }

  /** Trim gives back exactly the middle of a string whose margins are
      whitespace and whose middle is itself trimmed; this pins Trim down
      independently of how it is computed. */
  lemma {:induction false} TrimPadded(pre: String, mid: String, post: String)
    requires AllWhitespace(pre) && AllWhitespace(post) && IsTrimmed(mid)
    ensures Trim(pre + mid + post) == mid
  {
    var s := pre + mid + post;
    assert s == pre + (mid + post);
    if mid == [] {
      assert AllWhitespace(mid + post) by { assert mid + post == post; }
      assert AllWhitespace(s) by {
        forall i | 0 <= i < |s| ensures IsWhitespace(s[i]) {
          if i < |pre| { assert s[i] == pre[i]; } else { assert s[i] == post[i - |pre|]; }
        }
      }
      TrimSpec(s);
    } else {
      TrimStartPadded(pre, mid + post);
      TrimEndPadded(mid, post);
    }
  }

  lemma {:induction false} TrimStartPadded(pre: String, rest: String)
    requires AllWhitespace(pre)
    requires rest == [] || !IsWhitespace(rest[0])
    ensures TrimStart(pre + rest) == rest
  {
    if pre != [] {
      assert (pre + rest)[1..] == pre[1..] + rest;
      TrimStartPadded(pre[1..], rest);
    }
  }

  lemma {:induction false} TrimEndPadded(rest: String, post: String)
    requires AllWhitespace(post)
    requires rest == [] || !IsWhitespace(rest[|rest| - 1])
    ensures TrimEnd(rest + post) == rest
  {
    if post != [] {
      var p := post[..|post| - 1];
      assert (rest + post)[..|rest + post| - 1] == rest + p;
      TrimEndPadded(rest, p);
    }
  }

  /** Trimming twice is trimming once. */
  lemma TrimIdempotent(s: String)
    ensures Trim(Trim(s)) == Trim(s)
  {
    var t := Trim(s);
    TrimSpec(s);
    assert [] + t + [] == t;
    TrimPadded([], t, []);
  }

  /** String.prototype.split with a one-character separator: the pieces
      between consecutive separators, of which there is always at least one. */
  function Split(s: String, sep: char): (r: seq<String>)
    ensures r != []
    decreases |s|
  {
    if s == [] then [[]]
    else
      var rest := Split(s[1..], sep);
      if s[0] == sep then [[]] + rest
      else [[s[0]] + rest[0]] + rest[1..]
  }

  /** No piece holds the separator. */
  lemma {:induction false} SplitPiecesAvoid(s: String, sep: char)
    ensures forall p :: p in Split(s, sep) ==> sep !in p
    decreases |s|
  {
    if s != [] {
      var rest := Split(s[1..], sep);
      SplitPiecesAvoid(s[1..], sep);
      if s[0] != sep {
        assert rest[0] in rest;
        assert forall p :: p in rest[1..] ==> p in rest;
      }
    }
  }

  /** There is one more piece than there are separators. */
  lemma {:induction false} SplitCount(s: String, sep: char)
    ensures |Split(s, sep)| == multiset(s)[sep] + 1
    decreases |s|
  {
    if s != [] {
      SplitCount(s[1..], sep);
      assert s == [s[0]] + s[1..];
      assert multiset(s) == multiset{s[0]} + multiset(s[1..]);
    }
  }

  /** The pieces with the separator between them: the inverse of Split,
      used to state what Split computes. */
  function Join(pieces: seq<String>, sep: char): String
    decreases |pieces|
  {
    if |pieces| == 0 then []
    else if |pieces| == 1 then pieces[0]
    else pieces[0] + [sep] + Join(pieces[1..], sep)
  }

  /** Joining the pieces again gives back the text that was split. */
  lemma {:induction false} JoinSplit(s: String, sep: char)
    ensures Join(Split(s, sep), sep) == s
    decreases |s|
  {
    if s != [] {
      var c, t := s[0], s[1..];
      assert s == [c] + t;
      JoinSplit(t, sep);
      SplitCons(c, t, sep);
      if c == sep {
        JoinCons([], Split(t, sep), sep);
      } else {
        JoinPrefix(c, Split(t, sep), sep);
      }
    }
  }

  /** Join of a piece in front of a non-empty list. */
  lemma JoinCons(x: String, ps: seq<String>, sep: char)
    requires ps != []
    ensures Join([x] + ps, sep) == x + [sep] + Join(ps, sep)
  {
    assert ([x] + ps)[0] == x;
    assert ([x] + ps)[1..] == ps;
  }

  /** A character put in front of the first piece comes first in the join. */
  lemma JoinPrefix(c: char, ps: seq<String>, sep: char)
    requires ps != []
    ensures Join([[c] + ps[0]] + ps[1..], sep) == [c] + Join(ps, sep)
  {
    var qs := [[c] + ps[0]] + ps[1..];
    assert qs[0] == [c] + ps[0];
    assert qs[1..] == ps[1..];
    if |ps| > 1 {
      assert Join(ps, sep) == ps[0] + [sep] + Join(ps[1..], sep);
      assert Join(qs, sep) == ([c] + ps[0]) + [sep] + Join(ps[1..], sep);
    }
  }

  /** Splitting a join of separator-free pieces gives back the pieces. */
  lemma {:induction false} SplitJoin(pieces: seq<String>, sep: char)
    requires |pieces| >= 1
    requires forall p :: p in pieces ==> sep !in p
    ensures Split(Join(pieces, sep), sep) == pieces
    decreases |pieces|
  {
    if |pieces| == 1 {
      SplitWithoutSeparator(pieces[0], sep);
    } else {
      var p0, rest := pieces[0], pieces[1..];
      assert pieces == [p0] + rest;
      assert p0 in pieces;
      forall p | p in rest ensures sep !in p {
        assert p in pieces;
      }
      SplitJoin(rest, sep);
      SplitJoinStep(p0, rest, sep);
    }
  }

  /** One more separator-free piece in front keeps the split of a join. */
  lemma SplitJoinStep(p0: String, rest: seq<String>, sep: char)
    requires sep !in p0 && |rest| >= 1
    requires Split(Join(rest, sep), sep) == rest
    ensures Split(Join([p0] + rest, sep), sep) == [p0] + rest
  {
    JoinCons(p0, rest, sep);
    SplitConcat(p0, Join(rest, sep), sep);
    SplitWithoutSeparator(p0, sep);
  }

  /** A text without the separator is one piece. */
  lemma {:induction false} SplitWithoutSeparator(s: String, sep: char)
    requires sep !in s
    ensures Split(s, sep) == [s]
    decreases |s|
  {
    if s != [] {
      assert sep !in s[1..] by { assert forall c :: c in s[1..] ==> c in s; }
      SplitWithoutSeparator(s[1..], sep);
      assert [s[0]] + s[1..] == s;
    }
  }

  /** Split of a text given by its first character and the rest. */
  lemma SplitCons(c: char, t: String, sep: char)
    ensures Split([c] + t, sep)
            == if c == sep then [[]] + Split(t, sep) else [[c] + Split(t, sep)[0]] + Split(t, sep)[1..]
  {
    assert ([c] + t)[0] == c;
    assert ([c] + t)[1..] == t;
  }

  /** A separator between two texts splits them independently. */
  lemma {:induction false} SplitConcat(a: String, b: String, sep: char)
    ensures Split(a + [sep] + b, sep) == Split(a, sep) + Split(b, sep)
    decreases |a|
  {
    if a == [] {
      assert a + [sep] + b == [sep] + b;
      SplitCons(sep, b, sep);
    } else {
      var c, rest := a[0], a[1..];
      var t := rest + [sep] + b;
      assert a == [c] + rest;
      assert a + [sep] + b == [c] + t;
      SplitConcat(rest, b, sep);
      SplitConsConcat(c, t, Split(rest, sep), Split(b, sep), sep);
      SplitCons(c, rest, sep);
    }
  }

  /** A character in front of a text whose pieces are ra + rb goes to the
      front of the first piece of ra. */
  lemma SplitConsConcat(c: char, t: String, ra: seq<String>, rb: seq<String>, sep: char)
    requires ra != [] && Split(t, sep) == ra + rb
    ensures Split([c] + t, sep)
            == (if c == sep then [[]] + ra else [[c] + ra[0]] + ra[1..]) + rb
  {
    SplitCons(c, t, sep);
    if c != sep {
      JoinFirstPiece([c], ra, rb);
    }
  }

  /** Prefixing the first piece of ra + rb prefixes the first piece of ra. */
  lemma JoinFirstPiece(x: String, ra: seq<String>, rb: seq<String>)
    requires ra != []
    ensures [x + (ra + rb)[0]] + (ra + rb)[1..] == ([x + ra[0]] + ra[1..]) + rb
  {
    assert (ra + rb)[0] == ra[0];
    assert (ra + rb)[1..] == ra[1..] + rb;
  }
}
