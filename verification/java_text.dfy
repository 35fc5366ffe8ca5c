/**
 * The few `java.lang.String` operations the bot relies on: `trim`,
 * `toLowerCase`, `equalsIgnoreCase`, `split(" ")` and the rendering of a
 * `null` reference by concatenation and `%s`.
 */
module JavaText {
  import opened Wrappers

  /** A Java `String` reference; `None` is `null`. */
  type JString = Option<string>

  /** How `"..." + s` and `String.format("%s", s)` render a reference. */
  function Show(s: JString): string
  {
    match s
    case None => "null"
    case Some(v) => v
  }

  // ---------------------------------------------------------------- trim

  /** `String.trim` removes every leading and trailing char up to U+0020. */
  predicate IsTrimmable(c: char)
  {
    c <= ' '
  }

  predicate AllTrimmable(s: string)
  {
    forall i :: 0 <= i < |s| ==> IsTrimmable(s[i])
  }

  function TrimStart(s: string): string
    decreases |s|
  {
    if s != [] && IsTrimmable(s[0]) then TrimStart(s[1..]) else s
  }

  function TrimEnd(s: string): string
    decreases |s|
  {
    if s != [] && IsTrimmable(s[|s| - 1]) then TrimEnd(s[..|s| - 1]) else s
  }

  /** `String.trim()`. */
  function Trim(s: string): string
  {
    TrimEnd(TrimStart(s))
  }

  /** `TrimStart` removes a prefix of trimmable chars and keeps the rest from the first other char. */
  lemma {:induction false} TrimStartShape(s: string)
    ensures var r := TrimStart(s);
      && |r| <= |s| && r == s[|s| - |r|..]
      && AllTrimmable(s[..|s| - |r|])
      && (r == [] || !IsTrimmable(r[0]))
    decreases |s|
  {
    if s != [] && IsTrimmable(s[0]) {
      var r := TrimStart(s[1..]);
      TrimStartShape(s[1..]);
      var n := |s| - |r|;
      assert s[1..][|s[1..]| - |r|..] == s[n..];
      forall i | 0 <= i < n ensures IsTrimmable(s[..n][i]) {
        if i > 0 {
          assert s[..n][i] == s[1..][..|s[1..]| - |r|][i - 1];
        }
      }
    }
  }

  /** `TrimEnd` removes a suffix of trimmable chars and keeps the rest up to the last other char. */
  lemma {:induction false} TrimEndShape(s: string)
    ensures var r := TrimEnd(s);
      && |r| <= |s| && r == s[..|r|]
      && AllTrimmable(s[|r|..])
      && (r == [] || !IsTrimmable(r[|r| - 1]))
    decreases |s|
  {
    if s != [] && IsTrimmable(s[|s| - 1]) {
      var p := s[..|s| - 1];
      var r := TrimEnd(p);
      TrimEndShape(p);
      assert p[..|r|] == s[..|r|];
      forall i | |r| <= i < |s| ensures IsTrimmable(s[i]) {
        if i < |s| - 1 {
          assert s[i] == p[|r|..][i - |r|];
        }
      }
      assert forall i :: 0 <= i < |s[|r|..]| ==> s[|r|..][i] == s[|r| + i];
    }
  }

  /**
   * `trim` yields a string whose first and last chars are kept ones, and
   * yields the empty string exactly for a string of trimmable chars.
   */
  lemma TrimShape(s: string)
    ensures var r := Trim(s);
      && (r == [] || (!IsTrimmable(r[0]) && !IsTrimmable(r[|r| - 1])))
      && (r == [] <==> AllTrimmable(s))
  {
    var t := TrimStart(s);
    var r := TrimEnd(t);
    TrimStartShape(s);
    TrimEndShape(t);
    if r == [] {
      assert t == [];
      assert s[..|s| - |t|] == s;
    } else {
      assert r[0] == t[0];
      assert !AllTrimmable(s) by {
        assert s[|s| - |t|] == t[0];
      }
    }
  }

  /** Trimming only removes chars. */
  lemma TrimChars(s: string)
    ensures forall c :: c in Trim(s) ==> c in s
  {
    var t := TrimStart(s);
    var r := TrimEnd(t);
    TrimStartShape(s);
    TrimEndShape(t);
    forall c | c in r ensures c in s {
      var i :| 0 <= i < |r| && r[i] == c;
      assert t[i] == c;
      assert s[|s| - |t| + i] == c;
    }
  }

  /** Trimming a string whose ends are not trimmable leaves it unchanged. */
  lemma TrimOfTrimmed(s: string)
    requires s == [] || (!IsTrimmable(s[0]) && !IsTrimmable(s[|s| - 1]))
    ensures Trim(s) == s
  {
    assert TrimStart(s) == s;
  }

  /** `trim` is idempotent. */
  lemma TrimIdempotent(s: string)
    ensures Trim(Trim(s)) == Trim(s)
  {
    TrimShape(s);
    TrimOfTrimmed(Trim(s));
  }

  // ---------------------------------------------------------- case folding

  /** Lower-case mapping of one char, restricted to ASCII letters. */
  function LowerChar(c: char): char
  {
    if 'A' <= c <= 'Z' then (c as int - 'A' as int + 'a' as int) as char else c
  }

  /** `String.toLowerCase()` on ASCII letters; every other char is kept. */
  function Lower(s: string): (r: string)
    ensures |r| == |s|
    decreases |s|
  {
    if s == [] then [] else [LowerChar(s[0])] + Lower(s[1..])
  }

  /** `toLowerCase` maps each char on its own. */
  lemma {:induction false} LowerPointwise(s: string)
    ensures forall i :: 0 <= i < |s| ==> Lower(s)[i] == LowerChar(s[i])
    decreases |s|
  {
    if s != [] {
      LowerPointwise(s[1..]);
    }
  }

  /** A string without upper-case ASCII letters is its own lower-case form. */
  lemma {:induction false} LowerOfNoUpper(s: string)
    requires forall i :: 0 <= i < |s| ==> !('A' <= s[i] <= 'Z')
    ensures Lower(s) == s
    decreases |s|
  {
    if s != [] {
      LowerOfNoUpper(s[1..]);
    }
  }

  /** Lower-casing never touches the chars `trim` removes. */
  lemma LowerKeepsTrimmable(c: char)
    ensures IsTrimmable(LowerChar(c)) <==> IsTrimmable(c)
  {
  }

  /** A string made only of already-lower chars is its own lower-case form. */
  lemma LowerOfLowered(s: string, t: string)
    requires forall c :: c in s ==> c in Lower(t)
    ensures Lower(s) == s
  {
    LowerPointwise(s);
    LowerPointwise(t);
    forall i | 0 <= i < |s| ensures LowerChar(s[i]) == s[i] {
      assert s[i] in Lower(t);
      var j :| 0 <= j < |t| && Lower(t)[j] == s[i];
    }
  }

  /** `a.equalsIgnoreCase(b)`: same length, equal char by char up to case. */
  predicate EqualsIgnoreCase(a: string, b: string)
  {
    |a| == |b| && forall i :: 0 <= i < |a| ==> LowerChar(a[i]) == LowerChar(b[i])
  }

  lemma EqualsIgnoreCaseSymmetric(a: string, b: string)
    ensures EqualsIgnoreCase(a, b) <==> EqualsIgnoreCase(b, a)
  {
  }

  /** Ignoring case is the same as comparing the lower-case forms. */
  lemma EqualsIgnoreCaseIsLowerEquality(a: string, b: string)
    ensures EqualsIgnoreCase(a, b) <==> Lower(a) == Lower(b)
  {
    LowerPointwise(a);
    LowerPointwise(b);
    if Lower(a) == Lower(b) {
      assert |a| == |b|;
      forall i | 0 <= i < |a| ensures LowerChar(a[i]) == LowerChar(b[i]) {
        assert Lower(a)[i] == Lower(b)[i];
      }
    }
  }

  // ------------------------------------------------------------- split(" ")

  function CountSpaces(s: string): nat
    decreases |s|
  {
    if s == [] then 0 else (if s[0] == ' ' then 1 else 0) + CountSpaces(s[1..])
  }

  /** The text between consecutive single spaces, empty pieces included. */
  function Pieces(s: string): (r: seq<string>)
    ensures |r| >= 1
    decreases |s|
  {
    if s == [] then [[]]
    else
      var rest := Pieces(s[1..]);
      if s[0] == ' ' then [[]] + rest else [[s[0]] + rest[0]] + rest[1..]
  }

  /** Joins pieces with one space between neighbours. */
  function JoinSpaces(ps: seq<string>): string
    requires |ps| >= 1
    decreases |ps|
  {
    if |ps| == 1 then ps[0] else ps[0] + " " + JoinSpaces(ps[1..])
  }

  function DropTrailingEmpty(ps: seq<string>): (r: seq<string>)
    ensures r <= ps
    ensures r == [] || r[|r| - 1] != []
    decreases |ps|
  {
    if ps != [] && ps[|ps| - 1] == [] then DropTrailingEmpty(ps[..|ps| - 1]) else ps
  }

  /**
   * `s.split(" ")` with the default limit: a string without a space is
   * returned whole; otherwise the pieces, minus any trailing empty ones.
   */
  function SplitOnSpace(s: string): seq<string>
  {
    if ' ' !in s then [s] else DropTrailingEmpty(Pieces(s))
  }

  /** Every space opens exactly one more piece. */
  lemma {:induction false} PiecesCount(s: string)
    ensures |Pieces(s)| == 1 + CountSpaces(s)
    decreases |s|
  {
    if s != [] {
      PiecesCount(s[1..]);
    }
  }

  /** No piece holds a space. */
  lemma {:induction false} PiecesHaveNoSpace(s: string)
    ensures forall k :: 0 <= k < |Pieces(s)| ==> ' ' !in Pieces(s)[k]
    decreases |s|
  {
    if s != [] {
      var rest := Pieces(s[1..]);
      PiecesHaveNoSpace(s[1..]);
      if s[0] != ' ' {
        var ps := Pieces(s);
        assert ps == [[s[0]] + rest[0]] + rest[1..];
        forall k | 0 <= k < |ps| ensures ' ' !in ps[k] {
          if k > 0 { assert ps[k] == rest[k]; }
        }
      }
    }
  }

  /** Joining the pieces with single spaces gives the string back. */
  lemma {:induction false} PiecesJoin(s: string)
    ensures JoinSpaces(Pieces(s)) == s
    decreases |s|
  {
    if s != [] {
      var rest := Pieces(s[1..]);
      PiecesJoin(s[1..]);
      if s[0] == ' ' {
        assert Pieces(s) == [[]] + rest;
        assert JoinSpaces(Pieces(s)) == [] + " " + JoinSpaces(rest);
      } else {
        var ps := Pieces(s);
        assert ps == [[s[0]] + rest[0]] + rest[1..];
        if |rest| == 1 {
          assert JoinSpaces(ps) == [s[0]] + rest[0];
          assert JoinSpaces(rest) == rest[0];
        } else {
          assert ps[1..] == rest[1..];
          assert JoinSpaces(rest) == rest[0] + " " + JoinSpaces(rest[1..]);
          assert JoinSpaces(ps) == ([s[0]] + rest[0]) + " " + JoinSpaces(rest[1..]);
        }
        assert s == [s[0]] + s[1..];
      }
    }
  }

  /** The last piece is empty exactly when the string is empty or ends in a space. */
  lemma {:induction false} LastPiece(s: string)
    ensures var ps := Pieces(s); ps[|ps| - 1] == [] <==> (s == [] || s[|s| - 1] == ' ')
    decreases |s|
  {
    if s != [] {
      var rest := Pieces(s[1..]);
      LastPiece(s[1..]);
      if s[0] != ' ' && |rest| == 1 {
        PiecesCount(s[1..]);
        NoSpaceNoCount(s[1..]);
        if s[1..] != [] {
          assert s[|s| - 1] == s[1..][|s[1..]| - 1];
          assert s[|s| - 1] in s[1..];
        }
      }
      if s[1..] != [] {
        assert s[|s| - 1] == s[1..][|s[1..]| - 1];
      }
    }
  }

  /** Spaces are counted piecewise. */
  lemma {:induction false} CountSpacesAppend(a: string, b: string)
    ensures CountSpaces(a + b) == CountSpaces(a) + CountSpaces(b)
    decreases |a|
  {
    if a == [] {
      assert a + b == b;
    } else {
      assert (a + b)[0] == a[0];
      assert (a + b)[1..] == a[1..] + b;
      CountSpacesAppend(a[1..], b);
    }
  }

  /** A string with no space-count has no space. */
  lemma {:induction false} NoSpaceNoCount(s: string)
    ensures CountSpaces(s) == 0 <==> ' ' !in s
    decreases |s|
  {
    if s != [] {
      NoSpaceNoCount(s[1..]);
      assert s == [s[0]] + s[1..];
    }
  }

  /**
   * For a trimmed, non-blank string, `split(" ")` yields one more element
   * than there are spaces: doubled spaces produce empty elements.
   */
  lemma SplitTrimmedCount(t: string)
    requires t != [] && !IsTrimmable(t[0]) && !IsTrimmable(t[|t| - 1])
    ensures |SplitOnSpace(t)| == 1 + CountSpaces(t)
  {
    NoSpaceNoCount(t);
    if ' ' in t {
      var ps := Pieces(t);
      PiecesCount(t);
      LastPiece(t);
      assert t[|t| - 1] != ' ';
      assert ps[|ps| - 1] != [];
      assert DropTrailingEmpty(ps) == ps;
      assert SplitOnSpace(t) == ps;
    } else {
      assert SplitOnSpace(t) == [t];
    }
  }
}
