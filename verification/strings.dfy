/** The slice of Python's `str` behaviour the dashboard relies on:
    `split()`, `" ".join`, `.lower()`, the `in` substring test and `<`. */
module Strings {
  import opened Seqs

  /** The characters Python's `str.split()` treats as separators
      (`str.isspace`). */
  const Whitespace: set<char> := {
    '\t', '\n', '\U{0B}', '\U{0C}', '\r', '\U{1C}', '\U{1D}', '\U{1E}', '\U{1F}', ' ',
    '\U{85}', '\U{A0}', '\U{1680}',
    '\U{2000}', '\U{2001}', '\U{2002}', '\U{2003}', '\U{2004}', '\U{2005}',
    '\U{2006}', '\U{2007}', '\U{2008}', '\U{2009}', '\U{200A}',
    '\U{2028}', '\U{2029}', '\U{202F}', '\U{205F}', '\U{3000}'
  }

  predicate IsSpace(c: char)
  {
    c in Whitespace
  }

  predicate AllSpace(s: string)
  {
    forall i :: 0 <= i < |s| ==> IsSpace(s[i])
  }

  predicate NoSpace(s: string)
  {
    forall i :: 0 <= i < |s| ==> !IsSpace(s[i])
  }

  /** How many whitespace characters `s` starts with. */
  function LeadingSpaces(s: string): (n: nat)
    ensures n <= |s|
    ensures forall i :: 0 <= i < n ==> IsSpace(s[i])
    ensures n == |s| || !IsSpace(s[n])
  {
    if s != [] && IsSpace(s[0]) then 1 + LeadingSpaces(s[1..]) else 0
  }

  /** How many non-whitespace characters `s` starts with. */
  function WordLength(s: string): (n: nat)
    ensures n <= |s|
    ensures forall i :: 0 <= i < n ==> !IsSpace(s[i])
    ensures n == |s| || IsSpace(s[n])
  {
    if s == [] || IsSpace(s[0]) then 0 else 1 + WordLength(s[1..])
  }

  /** Python's `s.split()`: the maximal runs of non-whitespace, in order. */
  function Words(s: string): (ws: seq<string>)
    ensures ws == [] <==> AllSpace(s)
    decreases |s|
  {
    var k := LeadingSpaces(s);
    if k == |s| then []
    else
      var t := s[k..];
      var n := WordLength(t);
      assert n > 0 by {
        assert t[0] == s[k];
      }
      [t[..n]] + Words(t[n..])
  }

  /** Every word is non-empty and holds no whitespace. */
  lemma {:induction false} WordsShape(s: string)
    ensures forall i :: 0 <= i < |Words(s)| ==> Words(s)[i] != [] && NoSpace(Words(s)[i])
    decreases |s|
  {
    var k := LeadingSpaces(s);
    if k < |s| {
      var t := s[k..];
      var n := WordLength(t);
      assert n > 0 by {
        assert t[0] == s[k];
      }
      assert NoSpace(t[..n]) by {
        forall i | 0 <= i < n
          ensures !IsSpace(t[..n][i])
        {
          assert t[..n][i] == t[i];
        }
      }
      WordsShape(t[n..]);
      WordShapeCons(t[..n], Words(t[n..]));
    }
  }

  lemma WordShapeCons(w: string, ws: seq<string>)
    requires w != [] && NoSpace(w)
    requires forall i :: 0 <= i < |ws| ==> ws[i] != [] && NoSpace(ws[i])
    ensures forall i :: 0 <= i < |[w] + ws| ==> ([w] + ws)[i] != [] && NoSpace(([w] + ws)[i])
  {
    forall i | 0 <= i < |[w] + ws|
      ensures ([w] + ws)[i] != [] && NoSpace(([w] + ws)[i])
    {
      if i > 0 {
        assert ([w] + ws)[i] == ws[i - 1];
      }
    }
  }

  /** The combined length of all strings in `ws`. */
  function TotalLength(ws: seq<string>): nat
  {
    if ws == [] then 0 else |ws[0]| + TotalLength(ws[1..])
  }

  /** Python's `sep.join(ws)`: every string once, in order, with one
      separator between each adjacent pair and nothing else. */
  function Join(ws: seq<string>, sep: string): (s: string)
    ensures ws == [] ==> s == ""
    ensures |ws| == 1 ==> s == ws[0]
    ensures ws != [] ==> |s| == TotalLength(ws) + |sep| * (|ws| - 1)
    ensures ws != [] ==> s[..|ws[0]|] == ws[0]
  {
    if ws == [] then ""
    else if |ws| == 1 then ws[0]
    else ws[0] + sep + Join(ws[1..], sep)
  }

  /** Joining two non-empty lists back to back puts one separator between
      the two joins; with the one-item case this determines `Join`. */
  lemma {:induction false} JoinAppend(a: seq<string>, b: seq<string>, sep: string)
    requires a != [] && b != []
    ensures Join(a + b, sep) == Join(a, sep) + sep + Join(b, sep)
  {
    var ab := a + b;
    assert ab[0] == a[0];
    if |a| == 1 {
      assert ab[1..] == b;
    } else {
      assert ab[1..] == a[1..] + b;
      JoinAppend(a[1..], b, sep);
      var ja := Join(a[1..], sep);
      var jb := Join(b, sep);
      AppendAssoc(a[0] + sep, ja + sep, jb);
      AppendAssoc(a[0] + sep, ja, sep);
    }
  }

  lemma {:induction false} WordLengthOf(w: string, rest: string)
    requires NoSpace(w)
    requires rest == [] || IsSpace(rest[0])
    ensures WordLength(w + rest) == |w|
  {
    if w != [] {
      assert (w + rest)[0] == w[0];
      assert (w + rest)[1..] == w[1..] + rest;
      WordLengthOf(w[1..], rest);
    } else {
      assert w + rest == rest;
    }
  }

  /** Leading whitespace does not change the words of a string. */
  lemma {:induction false} WordsAfterSpaces(pre: string, s: string)
    requires AllSpace(pre)
    ensures Words(pre + s) == Words(s)
  {
    if pre == [] {
      assert pre + s == s;
    } else {
      assert (pre + s)[1..] == pre[1..] + s;
      assert (pre + s)[0] == pre[0];
      WordsAfterSpaces(pre[1..], s);
      WordsDropSpace(pre + s);
    }
  }

  /** Dropping one leading whitespace character keeps the words. */
  lemma WordsDropSpace(u: string)
    requires u != [] && IsSpace(u[0])
    ensures Words(u) == Words(u[1..])
  {
    var k := LeadingSpaces(u);
    var v := u[1..];
    assert k == 1 + LeadingSpaces(v);
    if k < |u| {
      assert u[k..] == v[k - 1..];
    }
  }

  /** A word followed by a separator (or by nothing) is the first word. */
  lemma WordsLeading(w: string, rest: string)
    requires w != [] && NoSpace(w)
    requires rest == [] || IsSpace(rest[0])
    ensures Words(w + rest) == [w] + Words(rest)
  {
    var u := w + rest;
    assert u[0] == w[0];
    assert LeadingSpaces(u) == 0;
    assert u[0..] == u;
    WordLengthOf(w, rest);
    assert u[..|w|] == w;
    assert u[|w|..] == rest;
  }

  /** Splitting undoes joining with single spaces when no word is empty or
      holds whitespace. */
  lemma {:induction false} WordsOfJoin(ws: seq<string>)
    requires forall i :: 0 <= i < |ws| ==> ws[i] != [] && NoSpace(ws[i])
    ensures Words(Join(ws, " ")) == ws
  {
    if ws == [] {
      assert AllSpace("");
    } else if |ws| == 1 {
      WordsSingle(ws[0]);
    } else {
      var tail := Join(ws[1..], " ");
      calc {
        Words(Join(ws, " "));
        Words(ws[0] + " " + tail);
        { WordsCons(ws[0], tail); }
        [ws[0]] + Words(tail);
        { WordsOfJoin(ws[1..]); }
        [ws[0]] + ws[1..];
        ws;
      }
    }
  }

  /** A string that starts with whitespace (or is empty) ends any word
      before it: the words of `a + b` are those of `a`, then those of `b`. */
  lemma {:induction false} WordsAppend(a: string, b: string)
    requires b == [] || IsSpace(b[0])
    ensures Words(a + b) == Words(a) + Words(b)
    decreases |a|, 1
  {
    var k := LeadingSpaces(a);
    var pre := a[..k];
    var t := a[k..];
    assert AllSpace(pre) by {
      forall i | 0 <= i < k
        ensures IsSpace(pre[i])
      {
        assert pre[i] == a[i];
      }
    }
    assert a == pre + t;
    AppendAssoc(pre, t, b);
    WordsAfterSpaces(pre, t + b);
    WordsAfterSpaces(pre, t);
    assert t == [] || t[0] == a[k];
    WordsAppendTrimmed(t, b);
  }

  lemma {:induction false} WordsAppendTrimmed(t: string, b: string)
    requires t == [] || !IsSpace(t[0])
    requires b == [] || IsSpace(b[0])
    ensures Words(t + b) == Words(t) + Words(b)
    decreases |t|, 0
  {
    if t == [] {
      assert t + b == b;
      assert AllSpace(t);
    } else {
      var n := WordLength(t);
      FirstWordThen(t, b);
      FirstWordThen(t, []);
      assert t + [] == t && t[n..] + [] == t[n..];
      WordsAppend(t[n..], b);
      AppendAssoc([t[..n]], Words(t[n..]), Words(b));
    }
  }

  /** The first word of a string that starts with a non-space stays the
      first word whatever whitespace-led text follows. */
  lemma FirstWordThen(t: string, b: string)
    requires t != [] && !IsSpace(t[0])
    requires b == [] || IsSpace(b[0])
    ensures 0 < WordLength(t)
    ensures Words(t + b) == [t[..WordLength(t)]] + Words(t[WordLength(t)..] + b)
  {
    var n := WordLength(t);
    var w := t[..n];
    var rest := t[n..];
    assert n > 0;
    assert NoSpace(w) by {
      forall i | 0 <= i < n
        ensures !IsSpace(w[i])
      {
        assert w[i] == t[i];
      }
    }
    SplitAt(t, n);
    AppendAssoc(w, rest, b);
    assert rest + b == [] || IsSpace((rest + b)[0]) by {
      if rest != [] {
        assert (rest + b)[0] == rest[0];
      }
    }
    WordsLeading(w, rest + b);
  }

  lemma WordsJoinSpace(a: string, b: string)
    ensures Words(a + " " + b) == Words(a) + Words(b)
  {
    AppendAssoc(a, " ", b);
    var sb := " " + b;
    assert sb[0] == ' ';
    WordsAppend(a, sb);
    WordsAfterOneSpace(b);
  }

  lemma WordsAfterOneSpace(b: string)
    ensures Words(" " + b) == Words(b)
  {
    assert AllSpace(" ") by {
      assert " "[0] == ' ';
    }
    WordsAfterSpaces(" ", b);
  }

  /** The words of every string of `ws`, in order. */
  function WordsOfEach(ws: seq<string>): seq<string>
  {
    if ws == [] then [] else Words(ws[0]) + WordsOfEach(ws[1..])
  }

  /** Splitting a single-space join gives the words of each joined string,
      in order, whatever the strings hold. */
  lemma {:induction false} WordsOfJoinAll(ws: seq<string>)
    ensures Words(Join(ws, " ")) == WordsOfEach(ws)
  {
    if ws == [] {
      assert AllSpace("");
    } else if |ws| == 1 {
      assert WordsOfEach(ws[1..]) == [];
    } else {
      WordsOfJoinAll(ws[1..]);
      WordsJoinSpace(ws[0], Join(ws[1..], " "));
    }
  }

  lemma WordsSingle(w: string)
    requires w != [] && NoSpace(w)
    ensures Words(w) == [w]
  {
    WordsLeading(w, "");
    assert w + "" == w;
    assert AllSpace("");
  }

  lemma WordsCons(w: string, tail: string)
    requires w != [] && NoSpace(w)
    ensures Words(w + " " + tail) == [w] + Words(tail)
  {
    var rest := " " + tail;
    calc {
      Words(w + " " + tail);
      { assert w + " " + tail == w + rest; }
      Words(w + rest);
      { WordsLeading(w, rest); }
      [w] + Words(rest);
      { WordsAfterSpaces(" ", tail); }
      [w] + Words(tail);
    }
  }

  predicate IsUpper(c: char)
  {
    'A' <= c <= 'Z'
  }

  /** ASCII lower-casing of one character. */
  function LowerChar(c: char): char
  {
    if IsUpper(c) then (c as int + 32) as char else c
  }

  /** Python's `s.lower()`, restricted to ASCII letters. */
  function Lower(s: string): (r: string)
    ensures |r| == |s|
    ensures forall i :: 0 <= i < |s| ==> r[i] == LowerChar(s[i])
  {
    if s == [] then [] else [LowerChar(s[0])] + Lower(s[1..])
  }

  /** Lower-casing leaves no upper-case letter behind, and changes nothing
      else: a string without upper-case letters is its own lower case. */
  lemma LowerNormalizes(s: string)
    ensures forall i :: 0 <= i < |s| ==> !IsUpper(Lower(s)[i])
    ensures (forall i :: 0 <= i < |s| ==> !IsUpper(s[i])) ==> Lower(s) == s
  {
  }

  lemma LowerIdempotent(s: string)
    ensures Lower(Lower(s)) == Lower(s)
  {
    LowerNormalizes(s);
    LowerNormalizes(Lower(s));
  }

  /** `needle` occurs in `hay` starting at index `i`. */
  ghost predicate OccursAt(needle: string, hay: string, i: nat)
  {
    i + |needle| <= |hay| && hay[i..i + |needle|] == needle
  }

  /** Python's `needle in hay` for two strings. */
  ghost predicate Occurs(needle: string, hay: string)
  {
    exists i: nat :: OccursAt(needle, hay, i)
  }

  /** Executable substring test, scanning `hay` from the left. */
  function Contains(hay: string, needle: string): (b: bool)
    ensures b <==> Occurs(needle, hay)
    decreases |hay|
  {
    if |needle| > |hay| then
      assert forall i: nat :: !OccursAt(needle, hay, i);
      false
    else if hay[..|needle|] == needle then
      assert OccursAt(needle, hay, 0);
      true
    else
      var b := Contains(hay[1..], needle);
      assert Occurs(needle, hay[1..]) ==> Occurs(needle, hay) by {
        if Occurs(needle, hay[1..]) {
          var j: nat :| OccursAt(needle, hay[1..], j);
          assert hay[1..][j..j + |needle|] == hay[j + 1..j + 1 + |needle|];
          assert OccursAt(needle, hay, j + 1);
        }
      }
      assert Occurs(needle, hay) ==> Occurs(needle, hay[1..]) by {
        if Occurs(needle, hay) {
          var j: nat :| OccursAt(needle, hay, j);
          assert j != 0;
          assert hay[1..][j - 1..j - 1 + |needle|] == hay[j..j + |needle|];
          assert OccursAt(needle, hay[1..], j - 1);
        }
      }
      b
  }

  /** The empty string is a substring of every string. */
  lemma EmptyOccurs(hay: string)
    ensures Contains(hay, "")
  {
    assert OccursAt("", hay, 0);
  }

  /** Python's `<` on `str`: lexicographic by code point, with a proper
      prefix ordered first. */
  predicate LexLess(a: string, b: string)
  {
    |b| > 0 && (|a| == 0 || a[0] < b[0] || (a[0] == b[0] && LexLess(a[1..], b[1..])))
  }

  lemma {:induction false} LexLessIrreflexive(a: string)
    ensures !LexLess(a, a)
  {
    if |a| > 0 {
      LexLessIrreflexive(a[1..]);
    }
  }

  lemma {:induction false} LexLessTotal(a: string, b: string)
    ensures a == b || LexLess(a, b) || LexLess(b, a)
  {
    if |a| > 0 && |b| > 0 && a[0] == b[0] {
      LexLessTotal(a[1..], b[1..]);
      if a[1..] == b[1..] {
        assert a == [a[0]] + a[1..] && b == [b[0]] + b[1..];
      }
    }
  }

  lemma {:induction false} LexLessTransitive(a: string, b: string, c: string)
    requires LexLess(a, b) && LexLess(b, c)
    ensures LexLess(a, c)
  {
    if |a| > 0 && a[0] == b[0] && b[0] == c[0] {
      LexLessTransitive(a[1..], b[1..], c[1..]);
    }
  }
}
