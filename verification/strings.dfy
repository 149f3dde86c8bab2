/** The few string operations the table renderer and the text parser use:
    `repeat`, `join`, `split` on a single character and `replaceAll` of a
    single character by a string. Strings are sequences of characters. */
module Strings {

  /** Every character of `s` is a space. */
  predicate AllSpaces(s: string)
  {
    forall i :: 0 <= i < |s| ==> s[i] == ' '
  }

  /** `s` written `n` times in a row. */
  function Repeat(s: string, n: nat): (r: string)
    ensures |r| == |s| * n
    ensures forall i :: 0 <= i < |r| ==> r[i] in s
  {
    if n == 0 then "" else s + Repeat(s, n - 1)
  }

  /** Writing a string twice. */
  lemma RepeatTwice(s: string)
    ensures Repeat(s, 2) == s + s
  {
    assert Repeat(s, 1) == s + "";
    assert s + "" == s;
  }

  /** `n` spaces: the padding every alignment strategy uses. */
  function Spaces(n: nat): (r: string)
    ensures |r| == n
    ensures AllSpaces(r)
  {
    Repeat(" ", n)
  }

  /** A string of spaces is determined by its length. */
  lemma AllSpacesIsSpaces(s: string)
    requires AllSpaces(s)
    ensures s == Spaces(|s|)
  {
  }

  /** The pieces of `parts` with `sep` between each pair of neighbours
      (no separator at either end; the empty sequence joins to ""). */
  function Join(parts: seq<string>, sep: string): (r: string)
    ensures |parts| >= 1 ==> parts[0] <= r
    decreases |parts|
  {
    if |parts| == 0 then ""
    else if |parts| == 1 then parts[0]
    else parts[0] + sep + Join(parts[1..], sep)
  }

  /** A character that occurs in no piece and not in the separator does not
      occur in the joined string. */
  lemma {:induction false} JoinExcludes(parts: seq<string>, sep: string, c: char)
    requires c !in sep
    requires forall i :: 0 <= i < |parts| ==> c !in parts[i]
    ensures c !in Join(parts, sep)
    decreases |parts|
  {
    if |parts| > 1 {
      JoinExcludes(parts[1..], sep, c);
    }
  }

  /** A character of the joined string comes from the separator or from one
      of the pieces. */
  lemma {:induction false} JoinCharacter(parts: seq<string>, sep: string, d: char)
    requires d in Join(parts, sep)
    ensures d in sep || exists i :: 0 <= i < |parts| && d in parts[i]
    decreases |parts|
  {
    if |parts| == 1 {
      assert d in parts[0];
    } else if |parts| > 1 && d !in parts[0] && d !in sep {
      JoinCharacter(parts[1..], sep, d);
      var i :| 0 <= i < |parts[1..]| && d in parts[1..][i];
      assert d in parts[i + 1];
    }
  }

  /** Every character of a joined string, at once. */
  lemma JoinCharacters(parts: seq<string>, sep: string)
    ensures forall d :: d in Join(parts, sep) ==> d in sep || exists i :: 0 <= i < |parts| && d in parts[i]
  {
    forall d | d in Join(parts, sep)
      ensures d in sep || exists i :: 0 <= i < |parts| && d in parts[i]
    {
      JoinCharacter(parts, sep, d);
    }
  }

  /** Every character of every piece occurs in the joined string. */
  lemma {:induction false} JoinIncludes(parts: seq<string>, sep: string, i: nat, d: char)
    requires i < |parts|
    requires d in parts[i]
    ensures d in Join(parts, sep)
    decreases |parts|
  {
    if |parts| > 1 && i > 0 {
      JoinIncludes(parts[1..], sep, i - 1, d);
    }
  }

  /** Joining a first piece in front of a non-empty rest. */
  lemma JoinCons(first: string, rest: seq<string>, sep: string)
    requires |rest| >= 1
    ensures Join([first] + rest, sep) == first + sep + Join(rest, sep)
  {
    assert ([first] + rest)[1..] == rest;
  }

  /** Joining a non-empty prefix followed by one last piece. */
  lemma {:induction false} JoinSnoc(parts: seq<string>, last: string, sep: string)
    requires |parts| >= 1
    ensures Join(parts + [last], sep) == Join(parts, sep) + sep + last
    decreases |parts|
  {
    if |parts| > 1 {
      JoinSnoc(parts[1..], last, sep);
      assert (parts + [last])[1..] == parts[1..] + [last];
    }
  }

  /** Joining exactly three pieces. */
  lemma JoinThree(a: string, b: string, c: string, sep: string)
    ensures Join([a, b, c], sep) == a + sep + b + sep + c
  {
    assert [a, b, c][1..] == [b, c];
    assert [b, c][1..] == [c];
    assert Join([c], sep) == c;
    assert Join([b, c], sep) == b + sep + c;
    assert Join([a, b, c], sep) == a + sep + Join([b, c], sep);
  }

  /** `s` cut at every occurrence of `c`, as JavaScript's `split` does with a
      one-character separator: the pieces never contain `c`, there is always
      at least one piece, and joining them with `c` gives `s` back. */
  function Split(s: string, c: char): (r: seq<string>)
    ensures |r| >= 1
    ensures forall i :: 0 <= i < |r| ==> c !in r[i]
    ensures Join(r, [c]) == s
    decreases |s|
  {
    if |s| == 0 then [""]
    else
      var rest := Split(s[1..], c);
      if s[0] == c then
        JoinCons("", rest, [c]);
        [""] + rest
      else
        var r := [[s[0]] + rest[0]] + rest[1..];
        if |rest| == 1 then
          r
        else
          JoinCons(rest[0], rest[1..], [c]);
          JoinCons([s[0]] + rest[0], rest[1..], [c]);
          assert [rest[0]] + rest[1..] == rest;
          r
  }

  /** In `a + [c] + b` with `a` free of `c`, the first `c` is at index `|a|`. */
  lemma FirstOccurrence(a: string, b: string, c: char)
    requires c !in a
    ensures (a + [c] + b)[|a|] == c
    ensures forall k :: 0 <= k < |a| ==> (a + [c] + b)[k] != c
  {
    forall k | 0 <= k < |a|
      ensures (a + [c] + b)[k] != c
    {
      assert (a + [c] + b)[k] == a[k];
    }
  }

  /** Where two strings that each start with a `c`-free part followed by `c`
      are equal, the `c`-free parts are equal and so are the remainders. */
  lemma FirstSeparator(a: string, b: string, x: string, y: string, c: char)
    requires c !in a && c !in x
    requires a + [c] + b == x + [c] + y
    ensures a == x && b == y
  {
    var s := a + [c] + b;
    FirstOccurrence(a, b, c);
    FirstOccurrence(x, y, c);
    assert |a| == |x|;
    assert a == s[..|a|] == x;
    assert b == s[|a| + 1..] == y;
  }

  /** Joining `c`-free pieces with `c` loses nothing: the pieces are
      determined by the joined string. */
  lemma {:induction false} JoinInjective(p: seq<string>, q: seq<string>, c: char)
    requires |p| >= 1 && |q| >= 1
    requires forall i :: 0 <= i < |p| ==> c !in p[i]
    requires forall i :: 0 <= i < |q| ==> c !in q[i]
    requires Join(p, [c]) == Join(q, [c])
    ensures p == q
    decreases |p|
  {
    if |p| > 1 && |q| > 1 {
      FirstSeparator(p[0], Join(p[1..], [c]), q[0], Join(q[1..], [c]), c);
      JoinInjective(p[1..], q[1..], c);
      assert p == [p[0]] + p[1..] && q == [q[0]] + q[1..];
    }
  }

  /** Splitting undoes joining, for at least one piece and pieces free of
      the separator. */
  lemma SplitJoin(parts: seq<string>, c: char)
    requires |parts| >= 1
    requires forall i :: 0 <= i < |parts| ==> c !in parts[i]
    ensures Split(Join(parts, [c]), c) == parts
  {
    JoinInjective(Split(Join(parts, [c]), c), parts, c);
  }

  /** `s` with every occurrence of the character `c` replaced by the string
      `rep`; the only use of `replaceAll` in the table renderer. */
  function ReplaceChar(s: string, c: char, rep: string): (r: string)
    ensures c !in s ==> r == s
    ensures forall d :: d in r ==> (d in s && d != c) || d in rep
    decreases |s|
  {
    if |s| == 0 then ""
    else (if s[0] == c then rep else [s[0]]) + ReplaceChar(s[1..], c, rep)
  }

  /** Replacement works piecewise over a concatenation. */
  lemma {:induction false} ReplaceConcat(a: string, b: string, c: char, rep: string)
    ensures ReplaceChar(a + b, c, rep) == ReplaceChar(a, c, rep) + ReplaceChar(b, c, rep)
    decreases |a|
  {
    if |a| == 0 {
      assert a + b == b;
    } else {
      assert (a + b)[0] == a[0];
      assert (a + b)[1..] == a[1..] + b;
      ReplaceConcat(a[1..], b, c, rep);
    }
  }

  /** Replacing the spaces of a run of `n` spaces yields `rep` written `n` times. */
  lemma {:induction false} ReplaceSpaces(n: nat, rep: string)
    ensures ReplaceChar(Spaces(n), ' ', rep) == Repeat(rep, n)
  {
    if n > 0 {
      assert Spaces(n) == " " + Spaces(n - 1);
      assert Spaces(n)[1..] == Spaces(n - 1);
      ReplaceSpaces(n - 1, rep);
    }
  }

  /** Replacement distributes over a join: the pieces and the separator are
      each replaced. */
  lemma {:induction false} ReplaceJoin(parts: seq<string>, sep: string, c: char, rep: string)
    ensures ReplaceChar(Join(parts, sep), c, rep)
         == Join(seq(|parts|, i requires 0 <= i < |parts| => ReplaceChar(parts[i], c, rep)),
                 ReplaceChar(sep, c, rep))
    decreases |parts|
  {
    var replaced := seq(|parts|, i requires 0 <= i < |parts| => ReplaceChar(parts[i], c, rep));
    if |parts| > 1 {
      ReplaceJoin(parts[1..], sep, c, rep);
      ReplaceConcat(parts[0] + sep, Join(parts[1..], sep), c, rep);
      ReplaceConcat(parts[0], sep, c, rep);
      assert replaced[1..] == seq(|parts[1..]|, i requires 0 <= i < |parts[1..]| => ReplaceChar(parts[1..][i], c, rep));
    }
  }
}
