/** The handful of Python string primitives the matcher relies on, over
    `string` (= `seq<char>`): substring membership (`pat in text`),
    `str.find`, `str.rfind`, `str.split` / `str.join` on one separator,
    and ASCII `str.lower`. Each search function is tied to the declarative
    notion of an occurrence (`OccursAt`) by its contract. */
module Strings {
  import opened Wrappers

  /** `pat` occurs in `text` starting at index `i`. */
  ghost predicate OccursAt(pat: string, text: string, i: int)
  {
    0 <= i && i + |pat| <= |text| && text[i..i + |pat|] == pat
  }

  /** Python's `pat in text`, stated without any search. */
  ghost predicate IsSubstring(pat: string, text: string)
  {
    exists i :: OccursAt(pat, text, i)
  }

  /** `i` is the lowest index at which `pat` occurs. */
  ghost predicate FirstOccurrence(pat: string, text: string, i: int)
  {
    OccursAt(pat, text, i) && forall j :: 0 <= j < i ==> !OccursAt(pat, text, j)
  }

  /** `text.find(pat, from)`: the lowest index `>= from` at which `pat`
      occurs, or `None` (Python's -1). */
  function FindFrom(pat: string, text: string, from: nat): (r: Option<nat>)
    decreases |text| - from
    ensures r.Some? ==> from <= r.value && OccursAt(pat, text, r.value)
    ensures r.Some? ==> forall j :: from <= j < r.value ==> !OccursAt(pat, text, j)
    ensures r.None? ==> forall j :: from <= j ==> !OccursAt(pat, text, j)
  {
    if from + |pat| > |text| then None
    else if text[from..from + |pat|] == pat then Some(from)
    else FindFrom(pat, text, from + 1)
  }

  /** `text.find(pat)`. */
  function Find(pat: string, text: string): (r: Option<nat>)
    ensures r.Some? <==> IsSubstring(pat, text)
    ensures r.Some? ==> FirstOccurrence(pat, text, r.value)
  {
    FindFrom(pat, text, 0)
  }

  /** `pat in text`. */
  function Contains(pat: string, text: string): (r: bool)
    ensures r <==> IsSubstring(pat, text)
  {
    Find(pat, text).Some?
  }

  /** `text.rfind(pat, 0, end)`: the highest index `i` with
      `i + |pat| <= end` at which `pat` occurs, or `None` (Python's -1). */
  function RFindBefore(pat: string, text: string, end: nat): (r: Option<nat>)
    requires end <= |text|
    ensures r.Some? ==> r.value + |pat| <= end && OccursAt(pat, text, r.value)
    ensures r.Some? ==> forall j :: r.value < j && j + |pat| <= end ==> !OccursAt(pat, text, j)
    ensures r.None? ==> forall j :: 0 <= j && j + |pat| <= end ==> !OccursAt(pat, text, j)
  {
    if end < |pat| then None
    else if text[end - |pat|..end] == pat then Some(end - |pat|)
    else RFindBefore(pat, text, end - 1)
  }

  /** A pattern holding a character the text lacks does not occur in it. */
  lemma AbsentCharNotSubstring(pat: string, text: string, c: char)
    requires c in pat && c !in text
    ensures !IsSubstring(pat, text)
  {
    var k :| 0 <= k < |pat| && pat[k] == c;
    forall i | 0 <= i && i + |pat| <= |text|
      ensures !OccursAt(pat, text, i)
    {
      assert text[i..i + |pat|][k] == text[i + k];
    }
  }

  /** A pattern `b + m + a` whose middle piece holds a character the text
      lacks does not occur in the text. */
  lemma AbsentPieceNotSubstring(b: string, m: string, a: string, text: string, k: int)
    requires 0 <= k < |m| && m[k] !in text
    ensures !IsSubstring(b + m + a, text)
  {
    assert (b + m + a)[|b| + k] == m[k];
    AbsentCharNotSubstring(b + m + a, text, m[k]);
  }

  /** `pat` occurs in `a + pat + b` right after `a`. */
  lemma OccursInConcat(a: string, pat: string, b: string)
    ensures OccursAt(pat, a + pat + b, |a|)
  {
    assert (a + pat + b)[|a|..|a| + |pat|] == pat;
  }

  /** The occurrence right after `a` is the first one when some character
      of `pat` is found neither in `a` nor earlier in `pat`: any earlier
      start would put that character inside `a + pat[..k]`. */
  lemma FirstInConcat(a: string, pat: string, b: string, k: int)
    requires 0 <= k < |pat| && pat[k] !in a && pat[k] !in pat[..k]
    ensures FirstOccurrence(pat, a + pat + b, |a|)
  {
    var t := a + pat + b;
    OccursInConcat(a, pat, b);
    forall j | 0 <= j < |a| ensures !OccursAt(pat, t, j) {
      if j + |pat| <= |t| {
        if j + k < |a| {
          assert t[j + k] == a[j + k];
        } else {
          assert t[j + k] == pat[..k][j + k - |a|];
        }
        assert t[j..j + |pat|][k] == t[j + k];
      }
    }
  }

  /** `pat` occurs at the end of `a + pat`. */
  lemma OccursAtEnd(a: string, pat: string)
    ensures OccursAt(pat, a + pat, |a|)
  {
    OccursInConcat(a, pat, "");
    assert a + pat + "" == a + pat;
  }

  /** `FirstInConcat` for a pattern at the very end of the text. */
  lemma FirstAtEnd(a: string, pat: string, k: int)
    requires 0 <= k < |pat| && pat[k] !in a && pat[k] !in pat[..k]
    ensures FirstOccurrence(pat, a + pat, |a|)
  {
    FirstInConcat(a, pat, "", k);
    assert a + pat + "" == a + pat;
  }

  /** In `a + [c] + b`, with `c` in neither `a` nor `b`, an occurrence of
      `pat` whose `k`-th character is `c` can only start at `|a| - k`. */
  lemma AnchoredInConcat(pat: string, a: string, c: char, b: string, k: int, i: int)
    requires c !in a && c !in b && 0 <= k < |pat| && pat[k] == c
    ensures OccursAt(pat, a + [c] + b, i) ==> i + k == |a|
  {
    var t := a + [c] + b;
    if 0 <= i && i + |pat| <= |t| && i + k != |a| {
      if i + k < |a| {
        assert t[i + k] == a[i + k];
      } else {
        assert t[i + k] == b[i + k - |a| - 1];
      }
      assert t[i..i + |pat|][k] == t[i + k];
    }
  }

  /** The only possible start fixed by an anchor character lies outside
      the text: `pat` does not occur. */
  lemma AnchorOutOfRange(pat: string, a: string, c: char, b: string, k: int)
    requires c !in a && c !in b && 0 <= k < |pat| && pat[k] == c
    requires |a| < k || |a| - k + |pat| > |a| + 1 + |b|
    ensures !IsSubstring(pat, a + [c] + b)
  {
    forall i ensures !OccursAt(pat, a + [c] + b, i) {
      AnchoredInConcat(pat, a, c, b, k, i);
    }
  }

  /** The text differs from `pat` at the only possible start fixed by an
      anchor character: `pat` does not occur. */
  lemma AnchorMismatch(pat: string, a: string, c: char, b: string, k: int, d: int)
    requires c !in a && c !in b && 0 <= k < |pat| && pat[k] == c
    requires 0 <= d < |pat| && 0 <= |a| - k + d < |a| + 1 + |b|
    requires (a + [c] + b)[|a| - k + d] != pat[d]
    ensures !IsSubstring(pat, a + [c] + b)
  {
    var t := a + [c] + b;
    forall i ensures !OccursAt(pat, t, i) {
      AnchoredInConcat(pat, a, c, b, k, i);
      if i + k == |a| && 0 <= i && i + |pat| <= |t| {
        assert t[i..i + |pat|][d] == t[i + d];
      }
    }
  }

  // ---------------------------------------------------------------------
  // str.split(sep) / sep.join(lines)

  /** `s.split(sep)` for a one-character separator: never empty, and no
      piece contains the separator (`"".split(sep) == [""]`). */
  function Split(s: string, sep: char): (r: seq<string>)
    ensures |r| >= 1
    ensures forall k :: 0 <= k < |r| ==> sep !in r[k]
  {
    if |s| == 0 then [""]
    else
      var rest := Split(s[1..], sep);
      if s[0] == sep then [""] + rest
      else [[s[0]] + rest[0]] + rest[1..]
  }

  /** `sep.join(lines)`. */
  function Join(lines: seq<string>, sep: char): string
  {
    if |lines| == 0 then ""
    else if |lines| == 1 then lines[0]
    else lines[0] + [sep] + Join(lines[1..], sep)
  }

  lemma JoinCons(x: string, lines: seq<string>, sep: char)
    requires |lines| >= 1
    ensures Join([x + lines[0]] + lines[1..], sep) == x + Join(lines, sep)
  {
    var l := [x + lines[0]] + lines[1..];
    assert l[1..] == lines[1..];
  }

  /** Joining the pieces of a split gives back the original string. */
  lemma {:induction false} JoinSplit(s: string, sep: char)
    ensures Join(Split(s, sep), sep) == s
  {
    if |s| > 0 {
      var rest := Split(s[1..], sep);
      JoinSplit(s[1..], sep);
      if s[0] == sep {
        assert ([""] + rest)[1..] == rest;
        assert [sep] + s[1..] == s;
      } else {
        JoinCons([s[0]], rest, sep);
        assert [s[0]] + s[1..] == s;
      }
    }
  }

  lemma {:induction false} SplitWithoutSep(a: string, sep: char)
    requires sep !in a
    ensures Split(a, sep) == [a]
  {
    if |a| > 0 {
      SplitWithoutSep(a[1..], sep);
      assert [a[0]] + a[1..] == a;
    }
  }

  lemma {:induction false} SplitAtSep(a: string, t: string, sep: char)
    requires sep !in a
    ensures Split(a + [sep] + t, sep) == [a] + Split(t, sep)
  {
    var s := a + [sep] + t;
    if |a| == 0 {
      assert s[0] == sep && s[1..] == t;
    } else {
      assert s[1..] == a[1..] + [sep] + t;
      SplitAtSep(a[1..], t, sep);
      assert [a[0]] + a[1..] == a;
    }
  }

  /** Splitting a join of separator-free pieces gives back the pieces. */
  lemma {:induction false} SplitJoin(lines: seq<string>, sep: char)
    requires |lines| >= 1
    requires forall k :: 0 <= k < |lines| ==> sep !in lines[k]
    ensures Split(Join(lines, sep), sep) == lines
  {
    if |lines| == 1 {
      SplitWithoutSep(lines[0], sep);
    } else {
      SplitJoin(lines[1..], sep);
      SplitAtSep(lines[0], Join(lines[1..], sep), sep);
      assert [lines[0]] + lines[1..] == lines;
    }
  }

  // ---------------------------------------------------------------------
  // ASCII str.lower

  predicate IsUpper(c: char)
  {
    'A' <= c <= 'Z'
  }

  /** ASCII lower-casing of one character: an upper-case letter becomes
      the lower-case letter at the same position in the alphabet, and
      every other character is kept. */
  function LowerChar(c: char): (r: char)
    ensures IsUpper(c) ==> 'a' <= r <= 'z' && r as int - 'a' as int == c as int - 'A' as int
    ensures !IsUpper(c) ==> r == c
  {
    if IsUpper(c) then (c as int + 32) as char else c
  }

  /** `str.lower` restricted to ASCII letters: each upper-case letter is
      replaced by the lower-case letter at the same position in the
      alphabet, nothing else changes. */
  function Lower(s: string): (r: string)
    ensures |r| == |s|
    ensures forall i :: 0 <= i < |s| && IsUpper(s[i]) ==>
              'a' <= r[i] <= 'z' && r[i] as int - 'a' as int == s[i] as int - 'A' as int
    ensures forall i :: 0 <= i < |s| && !IsUpper(s[i]) ==> r[i] == s[i]
  {
    seq(|s|, i requires 0 <= i < |s| => LowerChar(s[i]))
  }

  /** The two alphabets, written out. */
  const UpperLetters := "ABCDEFGHIJKLMNOPQRSTUVWXYZ"
  const LowerLetters := "abcdefghijklmnopqrstuvwxyz"

  /** Lower-casing against the written-out alphabets: an upper-case
      letter becomes the lower-case letter listed at its place. */
  lemma LowerCharTable(c: char)
    requires IsUpper(c)
    ensures UpperLetters[c as int - 'A' as int] == c
    ensures LowerChar(c) == LowerLetters[c as int - 'A' as int]
  {
  }

  /** Every line of `lines` lower-cased. */
  function LowerEach(lines: seq<string>): seq<string>
  {
    seq(|lines|, k requires 0 <= k < |lines| => Lower(lines[k]))
  }

  /** Lower-casing works character by character. */
  lemma LowerAppend(a: string, b: string)
    ensures Lower(a + b) == Lower(a) + Lower(b)
  {
  }

  /** Text without upper-case letters is already lower case. */
  lemma LowerUnchanged(s: string)
    requires forall c :: c in s ==> !IsUpper(c)
    ensures Lower(s) == s
  {
  }

  /** Lower-casing leaves no upper-case letter, changes nothing that is
      not an upper-case letter, and is idempotent. */
  lemma LowerProperties(s: string)
    ensures forall i :: 0 <= i < |s| ==> !IsUpper(Lower(s)[i])
    ensures forall i :: 0 <= i < |s| && !IsUpper(s[i]) ==> Lower(s)[i] == s[i]
    ensures Lower(Lower(s)) == Lower(s)
  {
  }

  /** One step of `Split`. */
  lemma SplitCons(s: string, sep: char)
    requires |s| > 0
    ensures Split(s, sep) == if s[0] == sep then [""] + Split(s[1..], sep)
                             else [[s[0]] + Split(s[1..], sep)[0]] + Split(s[1..], sep)[1..]
  {
  }

  /** Lower-casing a non-empty string lower-cases its first character
      and the rest separately. */
  lemma LowerCons(s: string)
    requires |s| > 0
    ensures Lower(s)[0] == LowerChar(s[0]) && Lower(s)[1..] == Lower(s[1..])
  {
  }

  lemma LowerEachCons(x: string, lines: seq<string>)
    ensures LowerEach([x] + lines) == [Lower(x)] + LowerEach(lines)
  {
  }

  lemma LowerEachTail(lines: seq<string>)
    requires |lines| >= 1
    ensures LowerEach(lines)[0] == Lower(lines[0]) && LowerEach(lines)[1..] == LowerEach(lines[1..])
  {
  }

  /** A character that is no letter is the lower-case image of itself
      only. */
  lemma LowerCharIsSep(c: char, sep: char)
    requires !IsUpper(sep) && !('a' <= sep <= 'z')
    ensures LowerChar(c) == sep <==> c == sep
  {
  }

  /** The step of `LowerSplit` for a first character that is not the
      separator: it joins the first line on both sides. */
  lemma LowerSplitJoinsFirst(s: string, sep: char)
    requires |s| > 0 && s[0] != sep && !IsUpper(sep) && !('a' <= sep <= 'z')
    requires Split(Lower(s[1..]), sep) == LowerEach(Split(s[1..], sep))
    ensures Split(Lower(s), sep) == LowerEach(Split(s, sep))
  {
    var rest := Split(s[1..], sep);
    SplitLowerCons(s, sep);
    LowerEachTail(rest);
    LowerFirst(s[0], rest[0]);
    SplitCons(s, sep);
    LowerEachCons([s[0]] + rest[0], rest[1..]);
  }

  /** `SplitCons` for a lower-cased text whose first character is not the
      separator. */
  lemma SplitLowerCons(s: string, sep: char)
    requires |s| > 0 && s[0] != sep && !IsUpper(sep) && !('a' <= sep <= 'z')
    ensures Split(Lower(s), sep) == [[LowerChar(s[0])] + Split(Lower(s[1..]), sep)[0]] + Split(Lower(s[1..]), sep)[1..]
  {
    LowerCons(s);
    LowerCharIsSep(s[0], sep);
    SplitCons(Lower(s), sep);
  }

  lemma LowerFirst(x: char, y: string)
    ensures Lower([x] + y) == [LowerChar(x)] + Lower(y)
  {
    LowerCons([x] + y);
    assert ([x] + y)[1..] == y;
  }

  /** Lower-casing never creates or removes a separator that is not a
      letter, so the lines of a lower-cased text are the lower-cased
      lines of the text. */
  lemma {:induction false} LowerSplit(s: string, sep: char)
    requires !IsUpper(sep) && !('a' <= sep <= 'z')
    ensures Split(Lower(s), sep) == LowerEach(Split(s, sep))
  {
    if |s| > 0 {
      LowerSplit(s[1..], sep);
      if s[0] == sep {
        LowerCons(s);
        SplitCons(Lower(s), sep);
        LowerEachCons("", Split(s[1..], sep));
      } else {
        LowerSplitJoinsFirst(s, sep);
      }
    }
  }
}
