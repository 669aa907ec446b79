/**
 * The string operations of the JavaScript standard library that the
 * analyser chains together: `join`, `split` on a character, `split(/\s+/)`
 * with the empty pieces dropped, `trim` and `includes`.
 */
module Strings {
  import opened TextClasses

  /** `pieces.join(sep)`. */
  function Join(pieces: seq<string>, sep: string): string
  {
    if |pieces| == 0 then ""
    else if |pieces| == 1 then pieces[0]
    else pieces[0] + sep + Join(pieces[1..], sep)
  }

  /** `s.split(sep)` for a one-character separator: the pieces between
      separators, never fewer than one. */
  function Split(s: string, sep: char): (r: seq<string>)
    ensures |r| >= 1
    ensures forall p :: p in r ==> sep !in p
  {
    if s == [] then [""]
    else
      var rest := Split(s[1..], sep);
      if s[0] == sep then [""] + rest
      else [[s[0]] + rest[0]] + rest[1..]
  }

  /** Splitting and joining again on the same separator gives back the text. */
  lemma {:induction false} JoinSplit(s: string, sep: char)
    ensures Join(Split(s, sep), [sep]) == s
  {
    if s != [] {
      var rest := Split(s[1..], sep);
      JoinSplit(s[1..], sep);
      if s[0] == sep {
        assert ([""] + rest)[1..] == rest;
      } else {
        var r := [[s[0]] + rest[0]] + rest[1..];
        assert r[1..] == rest[1..];
        if |rest| > 1 {
          assert Join(rest, [sep]) == rest[0] + [sep] + Join(rest[1..], [sep]);
        }
      }
    }
  }

  /** Joining separator-free pieces and splitting again gives back the pieces. */
  lemma {:induction false} SplitJoin(pieces: seq<string>, sep: char)
    requires |pieces| >= 1
    requires forall p :: p in pieces ==> sep !in p
    ensures Split(Join(pieces, [sep]), sep) == pieces
  {
    if |pieces| == 1 {
      SplitFree(pieces[0], sep);
    } else {
      var p := pieces[0];
      var tail := Join(pieces[1..], [sep]);
      SplitJoin(pieces[1..], sep);
      SplitPrefix(p, tail, sep);
    }
  }

  /** A separator-free text splits into itself. */
  lemma {:induction false} SplitFree(p: string, sep: char)
    requires sep !in p
    ensures Split(p, sep) == [p]
  {
    if p != [] {
      assert p[0] in p;
      assert forall c :: c in p[1..] ==> c in p;
      SplitFree(p[1..], sep);
      assert [p[0]] + p[1..] == p;
    }
  }

  /** Splitting `p + [sep] + tail` for a separator-free `p`. */
  lemma {:induction false} SplitPrefix(p: string, tail: string, sep: char)
    requires sep !in p
    ensures Split(p + [sep] + tail, sep) == [p] + Split(tail, sep)
  {
    var s := p + [sep] + tail;
    if p == [] {
      assert s[1..] == tail;
    } else {
      assert s[1..] == p[1..] + [sep] + tail;
      SplitPrefix(p[1..], tail, sep);
      assert [p[0]] + p[1..] == p;
    }
  }

  /** `s.length`: UTF-16 code units, one for a character below U+10000 and
      two (a surrogate pair) for a character above. */
  function Utf16Length(s: string): (n: nat)
    ensures |s| <= n <= 2 * |s|
  {
    if s == [] then 0 else (if s[0] as int < 0x10000 then 1 else 2) + Utf16Length(s[1..])
  }

  /** Inside the Basic Multilingual Plane the two lengths agree. */
  lemma {:induction false} Utf16LengthBmp(s: string)
    requires forall i :: 0 <= i < |s| ==> s[i] as int < 0x10000
    ensures Utf16Length(s) == |s|
  {
    if s != [] {
      Utf16LengthBmp(s[1..]);
    }
  }

  /** A character is one code unit below U+10000 and two (an emoji, say) above. */
  lemma Utf16LengthOne(c: char)
    ensures Utf16Length([c]) == if c as int < 0x10000 then 1 else 2
  {
    assert [c][1..] == [];
  }

  /** The length of a concatenation is the sum of the lengths. */
  lemma {:induction false} Utf16LengthAppend(a: string, b: string)
    ensures Utf16Length(a + b) == Utf16Length(a) + Utf16Length(b)
  {
    if a == [] {
      assert a + b == b;
    } else {
      assert (a + b)[0] == a[0] && (a + b)[1..] == a[1..] + b;
      Utf16LengthAppend(a[1..], b);
    }
  }

  /** Length of the leading run of non-white-space characters. */
  function RunLength(s: string, u: Unicode): (k: nat)
    ensures k <= |s|
    ensures NoSpace(s[..k], u)
    ensures k < |s| ==> u.isSpace(s[k])
  {
    if s == [] || u.isSpace(s[0]) then 0
    else
      var k := RunLength(s[1..], u);
      assert s[..1 + k] == [s[0]] + s[1..][..k];
      1 + k
  }

  /** The leading run is fixed by where the first white space is. */
  lemma RunLengthAt(s: string, k: nat, u: Unicode)
    requires k <= |s| && NoSpace(s[..k], u) && (k < |s| ==> u.isSpace(s[k]))
    ensures RunLength(s, u) == k
  {
  }

  /** A token as `split(/\s+/).filter(Boolean)` yields it: non-empty, no white space. */
  predicate IsWord(t: string, u: Unicode) {
    t != [] && NoSpace(t, u)
  }

  /** `s.split(/\s+/).filter(Boolean)`: the maximal runs of non-white-space
      characters, in order; every character of a run comes from the text. */
  function Words(s: string, u: Unicode): (r: seq<string>)
    ensures forall t :: t in r ==> IsWord(t, u)
    ensures forall t, c :: t in r && c in t ==> c in s
    decreases |s|
  {
    if s == [] then []
    else if u.isSpace(s[0]) then
      var r := Words(s[1..], u);
      assert forall c :: c in s[1..] ==> c in s;
      r
    else
      var k := RunLength(s, u);
      var r := Words(s[k..], u);
      assert forall c :: c in s[k..] ==> c in s;
      assert forall c :: c in s[..k] ==> c in s;
      [s[..k]] + r
  }

  /** The characters of `s` that are not white space, in order. */
  function Visible(s: string, u: Unicode): (r: string)
    ensures |r| <= |s|
  {
    if s == [] then [] else (if u.isSpace(s[0]) then [] else [s[0]]) + Visible(s[1..], u)
  }

  lemma {:induction false} VisibleAppend(a: string, b: string, u: Unicode)
    ensures Visible(a + b, u) == Visible(a, u) + Visible(b, u)
  {
    if a != [] {
      assert (a + b)[0] == a[0] && (a + b)[1..] == a[1..] + b;
      VisibleAppend(a[1..], b, u);
      var h: string := if u.isSpace(a[0]) then [] else [a[0]];
      calc {
        Visible(a + b, u);
        h + Visible(a[1..] + b, u);
        h + (Visible(a[1..], u) + Visible(b, u));
        (h + Visible(a[1..], u)) + Visible(b, u);
      }
    } else {
      assert a + b == b;
    }
  }

  lemma {:induction false} VisibleNoSpace(a: string, u: Unicode)
    requires NoSpace(a, u)
    ensures Visible(a, u) == a
  {
    if a != [] {
      assert NoSpace(a[1..], u) && !u.isSpace(a[0]);
      VisibleNoSpace(a[1..], u);
      assert [a[0]] + a[1..] == a;
    }
  }

  /** Nothing but white space is lost: the tokens, put back together, are
      exactly the text's non-white-space characters, in order. */
  lemma {:induction false} WordsVisible(s: string, u: Unicode)
    ensures Join(Words(s, u), "") == Visible(s, u)
    decreases |s|
  {
    if s == [] {
    } else if u.isSpace(s[0]) {
      WordsVisible(s[1..], u);
    } else {
      var k := RunLength(s, u);
      var rest := Words(s[k..], u);
      WordsVisible(s[k..], u);
      assert s == s[..k] + s[k..];
      VisibleAppend(s[..k], s[k..], u);
      VisibleNoSpace(s[..k], u);
      assert Words(s, u) == [s[..k]] + rest;
      if rest == [] {
        assert Join([s[..k]] + rest, "") == s[..k];
        assert Visible(s[k..], u) == [];
      } else {
        assert ([s[..k]] + rest)[1..] == rest;
      }
    }
  }

  /** A white-space character ends a token: the words of `a`, the white
      space `c`, then `b` are the words of `a` followed by those of `b`.
      With `WordsOfBlank` and `WordsOfJoin` on one token this fixes every
      token boundary. */
  lemma {:induction false} WordsSplitAt(a: string, c: char, b: string, u: Unicode)
    requires u.isSpace(c)
    ensures Words(a + [c] + b, u) == Words(a, u) + Words(b, u)
    decreases |a|
  {
    var s := a + [c] + b;
    if a == [] {
      assert s[0] == c && s[1..] == b;
    } else if u.isSpace(a[0]) {
      assert s[0] == a[0] && s[1..] == a[1..] + [c] + b;
      WordsSplitAt(a[1..], c, b, u);
    } else {
      var k := RunLength(a, u);
      assert s[..k] == a[..k];
      if k < |a| {
        assert s[k] == a[k];
        RunLengthAt(s, k, u);
        assert s[k..] == a[k..] + [c] + b;
        WordsSplitAt(a[k..], c, b, u);
      } else {
        assert s[k] == c;
        RunLengthAt(s, k, u);
        assert s[k..] == [c] + b && ([c] + b)[1..] == b;
        assert a[k..] == [];
        assert Words(s[k..], u) == Words(b, u);
      }
    }
  }

  /** A text of white space only has no words. */
  lemma {:induction false} WordsOfBlank(s: string, u: Unicode)
    requires Blank(s, u)
    ensures Words(s, u) == []
  {
    if s != [] {
      WordsOfBlank(s[1..], u);
    }
  }

  /** Words joined by single spaces split back into the same words. */
  lemma {:induction false} WordsOfJoin(ts: seq<string>, u: Unicode)
    requires forall t :: t in ts ==> IsWord(t, u)
    ensures Words(Join(ts, " "), u) == ts
  {
    if |ts| == 1 {
      var t := ts[0];
      assert IsWord(t, u);
      var k := RunLength(t, u);
      assert k == |t|;
      assert t[k..] == [];
      assert t[..k] == t;
    } else if |ts| > 1 {
      var t := ts[0];
      assert IsWord(t, u);
      var rest := Join(ts[1..], " ");
      var s := t + " " + rest;
      assert s[0] == t[0];
      var k := RunLength(s, u);
      assert s[..|t|] == t;
      assert s[|t|] == ' ';
      assert k == |t|;
      assert s[k..] == " " + rest;
      assert (" " + rest)[1..] == rest;
      WordsOfJoin(ts[1..], u);
    }
  }

  /** Length of the leading white-space run. */
  function LeadingBlanks(s: string, u: Unicode): (k: nat)
    ensures k <= |s| && Blank(s[..k], u)
    ensures k < |s| ==> !u.isSpace(s[k])
  {
    if s == [] || !u.isSpace(s[0]) then 0
    else
      var k := LeadingBlanks(s[1..], u);
      assert s[..1 + k] == [s[0]] + s[1..][..k];
      1 + k
  }

  /** Length of the trailing white-space run. */
  function TrailingBlanks(s: string, u: Unicode): (k: nat)
    ensures k <= |s| && Blank(s[|s| - k..], u)
    ensures k < |s| ==> !u.isSpace(s[|s| - k - 1])
  {
    if s == [] || !u.isSpace(s[|s| - 1]) then 0
    else
      var k := TrailingBlanks(s[..|s| - 1], u);
      assert s[|s| - 1 - k..] == s[..|s| - 1][|s| - 1 - k..] + [s[|s| - 1]];
      1 + k
  }

  /** The first half of `s.trim()`: the leading white space removed. */
  function TrimStart(s: string, u: Unicode): (r: string)
    ensures |r| <= |s| && r == s[|s| - |r|..]
    ensures Blank(s[..|s| - |r|], u)
    ensures r == [] || !u.isSpace(r[0])
  {
    s[LeadingBlanks(s, u)..]
  }

  /** The second half of `s.trim()`: the trailing white space removed. */
  function TrimEnd(s: string, u: Unicode): (r: string)
    ensures |r| <= |s| && r == s[..|r|]
    ensures Blank(s[|r|..], u)
    ensures r == [] || !u.isSpace(r[|r| - 1])
  {
    s[..|s| - TrailingBlanks(s, u)]
  }

  /** `s.trim()`: only white space is removed, and only at the two ends: the
      result is the slice of `s` that starts after the leading white space
      and stops before the trailing white space. */
  function Trim(s: string, u: Unicode): (r: string)
    ensures |r| <= |s|
    ensures r == [] || (!u.isSpace(r[0]) && !u.isSpace(r[|r| - 1]))
    ensures r == [] <==> Blank(s, u)
    ensures var i := LeadingBlanks(s, u);
      i + |r| <= |s| && r == s[i..i + |r|] && Blank(s[..i], u) && Blank(s[i + |r|..], u)
  {
    var i := LeadingBlanks(s, u);
    var t := TrailingBlanks(s[i..], u);
    assert s[i..][|s| - i - t..] == s[|s| - t..];
    assert t == |s| - i ==> Blank(s, u) by {
      if t == |s| - i {
        assert s == s[..i] + s[i..];
      }
    }
    s[i..|s| - t]
  }

  /** Trimming both ends at once is trimming the start, then the end. */
  lemma TrimBothEnds(s: string, u: Unicode)
    ensures Trim(s, u) == TrimEnd(TrimStart(s, u), u)
  {
    var i := LeadingBlanks(s, u);
    assert TrimStart(s, u) == s[i..];
  }

  /** `s.includes(needle)`. */
  predicate Contains(s: string, needle: string)
    decreases |s|
  {
    needle <= s || (s != [] && Contains(s[1..], needle))
  }

  /** `includes` finds the needle at every offset where it occurs ... */
  lemma {:induction false} ContainsAt(s: string, needle: string, i: nat)
    requires i + |needle| <= |s| && s[i..i + |needle|] == needle
    ensures Contains(s, needle)
  {
    if i > 0 {
      assert s[1..][i - 1..i - 1 + |needle|] == s[i..i + |needle|];
      ContainsAt(s[1..], needle, i - 1);
    } else {
      assert needle <= s;
    }
  }

  /** ... and only there. */
  lemma {:induction false} ContainsOffset(s: string, needle: string) returns (i: nat)
    requires Contains(s, needle)
    ensures i + |needle| <= |s| && s[i..i + |needle|] == needle
  {
    if needle <= s {
      i := 0;
    } else {
      var j := ContainsOffset(s[1..], needle);
      assert s[1..][j..j + |needle|] == s[j + 1..j + 1 + |needle|];
      i := j + 1;
    }
  }
}
