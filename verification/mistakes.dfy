/** The usage-mistake rules: the `Mistake` rule value, its four
    operations (the exception test, the check, the context of a match and
    the explanation), the two factory variants `OfMistake` and
    `LooseMistake`, and the ordered catalog of rules. */
module Mistakes {
  import opened Wrappers
  import opened Strings

  /** One rule. The defaults are those of the rule constructor. An
      absent exception list (`None`) and an empty one behave identically
      in the code, so both are the empty sequence here; an absent
      explanation is `None`. */
  datatype Mistake = Mistake(
    mistake: string,
    correction: string,
    exceptions: seq<string> := [],
    before: string := " ",
    after: string := " ",
    explanation: Option<string> := None)

  /** The literal searched for: the pattern with its required context
      on both sides. */
  function MatchString(m: Mistake): string
  {
    m.before + m.mistake + m.after
  }

  /** Some exception of `m` occurs somewhere in `text`. */
  ghost predicate Suppressed(m: Mistake, text: string)
  {
    exists k :: 0 <= k < |m.exceptions| && IsSubstring(m.exceptions[k], text)
  }

  /** Whether any of `needles` occurs in `text`. */
  function AnyOccurs(needles: seq<string>, text: string): (r: bool)
    ensures r <==> exists k :: 0 <= k < |needles| && IsSubstring(needles[k], text)
  {
    if |needles| == 0 then false
    else if Contains(needles[0], text) then true
    else
      var rest := AnyOccurs(needles[1..], text);
      assert forall k :: 1 <= k < |needles| ==> needles[k] == needles[1..][k - 1];
      rest
  }

  /** The exception test of a rule: does any of its exceptions occur in
      the text? */
  function IsException(m: Mistake, text: string): (r: bool)
    ensures r <==> Suppressed(m, text)
    ensures |m.exceptions| == 0 ==> !r
  {
    if |m.exceptions| == 0 then false
    else AnyOccurs(m.exceptions, text)
  }

  /** The check of a rule, without the statistics-file update: the
      correction exactly when the match string occurs and no exception
      does. */
  function Check(m: Mistake, text: string): (r: Option<string>)
    ensures r.Some? <==> IsSubstring(MatchString(m), text) && !Suppressed(m, text)
    ensures r.Some? ==> r.value == m.correction
  {
    if Contains(MatchString(m), text) && !IsException(m, text) then Some(m.correction)
    else None
  }

  // ---------------------------------------------------------------------
  // find_context

  /** No space in `text[lo..hi]`. */
  ghost predicate NoSpaceIn(text: string, lo: int, hi: int)
  {
    0 <= lo <= hi <= |text| && forall j :: lo <= j < hi ==> text[j] != ' '
  }

  /** `s` is the last index before `i` holding a space, or 0 if there is
      none. */
  ghost predicate ContextStart(text: string, i: int, s: int)
  {
    || (0 <= s < i <= |text| && text[s] == ' ' && NoSpaceIn(text, s + 1, i))
    || (s == 0 && NoSpaceIn(text, 0, i))
  }

  /** `e` is the first index at or after `k` holding a space, or `|text|`
      if there is none. */
  ghost predicate ContextEnd(text: string, k: int, e: int)
  {
    || (0 <= k <= e < |text| && text[e] == ' ' && NoSpaceIn(text, k, e))
    || (e == |text| && NoSpaceIn(text, k, |text|))
  }

  /** `text[s..e]` is the context of the first occurrence of `pat`. */
  ghost predicate ContextSpan(pat: string, text: string, s: int, e: int)
  {
    exists i :: FirstOccurrence(pat, text, i) && ContextStart(text, i, s) && ContextEnd(text, i + |pat|, e)
  }

  lemma SpaceOccursAt(text: string, j: int)
    ensures OccursAt(" ", text, j) <==> 0 <= j < |text| && text[j] == ' '
  {
    if 0 <= j < |text| {
      assert text[j..j + 1][0] == text[j];
    }
  }

  /** Where the context of a match at `i` starts: the last space before
      `i`, or 0 when there is none. */
  function ContextStartIndex(text: string, i: nat): (s: nat)
    requires i <= |text|
    ensures s <= i && ContextStart(text, i, s)
  {
    forall j | 0 <= j < |text| { SpaceOccursAt(text, j); }
    match RFindBefore(" ", text, i)
    case Some(j) => j
    case None => 0
  }

  /** Where the context of a match ending at `k` ends: the first space at
      or after `k`, or the end of the text when there is none. */
  function ContextEndIndex(text: string, k: nat): (e: nat)
    requires k <= |text|
    ensures k <= e <= |text| && ContextEnd(text, k, e)
  {
    forall j | 0 <= j < |text| { SpaceOccursAt(text, j); }
    match FindFrom(" ", text, k)
    case Some(j) => j
    case None => |text|
  }

  /** The context of a rule's match: the slice of `text` from the last space
      before the first occurrence of the match string (inclusive; text
      start if none) to the first space after it (exclusive; text end if
      none). */
  function FindContext(m: Mistake, text: string): (r: string)
    requires IsSubstring(MatchString(m), text)
    ensures exists s, e :: ContextSpan(MatchString(m), text, s, e) && 0 <= s <= e <= |text| && r == text[s..e]
    ensures IsSubstring(MatchString(m), r)
  {
    var ms := MatchString(m);
    var i := Find(ms, text).value;
    var s := ContextStartIndex(text, i);
    var e := ContextEndIndex(text, i + |ms|);
    assert FirstOccurrence(ms, text, i) && ContextStart(text, i, s) && ContextEnd(text, i + |ms|, e);
    assert ContextSpan(ms, text, s, e);
    OccursInSlice(ms, text, i, s, e);
    text[s..e]
  }

  /** An occurrence inside `text[s..e]` is one of the slice. */
  lemma OccursInSlice(pat: string, text: string, i: int, s: int, e: int)
    requires OccursAt(pat, text, i) && 0 <= s <= i && i + |pat| <= e <= |text|
    ensures OccursAt(pat, text[s..e], i - s)
  {
    var slice := text[s..e];
    forall k | 0 <= k < |pat| ensures slice[i - s + k] == pat[k] {
      assert slice[i - s + k] == text[i + k] == text[i..i + |pat|][k];
    }
    assert slice[i - s..i - s + |pat|] == pat;
  }

  /** The context bounds are determined by the text and the pattern:
      `FindContext` has exactly one possible result. */
  lemma ContextSpanUnique(pat: string, text: string, s1: int, e1: int, s2: int, e2: int)
    requires ContextSpan(pat, text, s1, e1) && ContextSpan(pat, text, s2, e2)
    ensures s1 == s2 && e1 == e2
  {
    var i1 :| FirstOccurrence(pat, text, i1) && ContextStart(text, i1, s1) && ContextEnd(text, i1 + |pat|, e1);
    var i2 :| FirstOccurrence(pat, text, i2) && ContextStart(text, i2, s2) && ContextEnd(text, i2 + |pat|, e2);
  }

  /** `FindContext` is exactly the slice its contract describes. */
  lemma FindContextIs(m: Mistake, text: string, i: int, s: int, e: int)
    requires FirstOccurrence(MatchString(m), text, i)
    requires ContextStart(text, i, s) && ContextEnd(text, i + |MatchString(m)|, e)
    ensures 0 <= s <= e <= |text| && FindContext(m, text) == text[s..e]
  {
    assert ContextSpan(MatchString(m), text, s, e);
    var s', e' :| ContextSpan(MatchString(m), text, s', e') && 0 <= s' <= e' <= |text|
                  && FindContext(m, text) == text[s'..e'];
    ContextSpanUnique(MatchString(m), text, s, e, s', e');
  }

  lemma NoSpaceInConcat(x: string, mid: string, y: string)
    requires ' ' !in mid
    ensures NoSpaceIn(x + mid + y, |x|, |x| + |mid|)
  {
    var t := x + mid + y;
    forall j | |x| <= j < |x| + |mid| ensures t[j] != ' ' {
      assert t[j] == mid[j - |x|];
    }
  }

  /** In `x + mid + y` with no space in `mid`, the context of an
      occurrence starting right after `mid` starts at the space that ends
      `x`, or at 0 when `x` is empty. */
  lemma ContextStartInConcat(x: string, mid: string, y: string)
    requires ' ' !in mid && (x == "" || x[|x| - 1] == ' ')
    ensures ContextStart(x + mid + y, |x| + |mid|, if x == "" then 0 else |x| - 1)
  {
    NoSpaceInConcat(x, mid, y);
    if x != "" {
      assert (x + mid + y)[|x| - 1] == x[|x| - 1];
    }
  }

  /** In `x + mid + y` with no space in `mid`, the context of an
      occurrence ending right before `mid` ends at the space that starts
      `y`, or at the end of the text when `y` is empty. */
  lemma ContextEndInConcat(x: string, mid: string, y: string)
    requires ' ' !in mid && (y == "" || y[0] == ' ')
    ensures ContextEnd(x + mid + y, |x|, |x| + |mid|)
  {
    NoSpaceInConcat(x, mid, y);
    if y != "" {
      assert (x + mid + y)[|x| + |mid|] == y[0];
    }
  }

  /** With no space before `i`, the context starts at the beginning. */
  lemma ContextStartAtFront(text: string, i: int)
    requires 0 <= i <= |text| && ' ' !in text[..i]
    ensures ContextStart(text, i, 0)
  {
    forall j | 0 <= j < i ensures text[j] != ' ' {
      assert text[j] == text[..i][j];
    }
  }

  /** With no space after `|x|`, the context ends with the text. */
  lemma ContextEndAtEnd(x: string, mid: string)
    requires ' ' !in mid
    ensures ContextEnd(x + mid, |x|, |x| + |mid|)
  {
    NoSpaceInConcat(x, mid, "");
    assert x + mid + "" == x + mid;
  }

  /** Unless it starts at the beginning of the text, the context keeps
      the space before the match as its first character (as in
      " lot more then that"). */
  lemma ContextLeadingSpace(pat: string, text: string, s: int, e: int)
    requires ContextSpan(pat, text, s, e) && s <= e
    requires s != 0
    ensures text[s..e][0] == ' '
  {
    var i :| FirstOccurrence(pat, text, i) && ContextStart(text, i, s) && ContextEnd(text, i + |pat|, e);
  }

  // ---------------------------------------------------------------------
  // explain

  const ExplanationPrefix := "Explanation: "

  /** The explanation shown with a correction: the prefixed explanation,
      or "" when there is none (an empty explanation counts as none). */
  function Explain(m: Mistake): (r: string)
    ensures r == "" <==> m.explanation.None? || m.explanation.value == ""
    ensures r != "" ==> |ExplanationPrefix| < |r| && r[..|ExplanationPrefix|] == ExplanationPrefix
                        && r[|ExplanationPrefix|..] == m.explanation.value
  {
    match m.explanation
    case Some(e) => if e != "" then ExplanationPrefix + e else ""
    case None => ""
  }

  // ---------------------------------------------------------------------
  // The two factory variants

  const OfExplanation := "You probably meant to say could've/should've/would've which sounds like 'of' but is actually short for 'have'."

  const LooseExplanation := "Loose is an adjective meaning the opposite of tight, while lose is a verb."

  /** The "<modal> of" family: " <modal> of " is corrected to
      "<modal> have" with the shared explanation; an absent or empty
      exception list becomes `["of course"]`, a given one is kept. */
  function OfMistake(modal: string, exceptions: seq<string> := []): (r: Mistake)
    ensures MatchString(r) == " " + modal + " of "
    ensures r.correction == modal + " have" && r.explanation == Some(OfExplanation)
    ensures |exceptions| == 0 ==> r.exceptions == ["of course"]
    ensures |exceptions| > 0 ==> r.exceptions == exceptions
  {
    Mistake(modal, modal + " have",
            if |exceptions| == 0 then ["of course"] else exceptions,
            " ", " of ", Some(OfExplanation))
  }

  /** The "loose" family: " loose<after>" is corrected to "lose" with the
      shared explanation; the exceptions are kept as given. */
  function LooseMistake(after: string, exceptions: seq<string> := []): (r: Mistake)
    ensures MatchString(r) == " loose" + after
    ensures r.correction == "lose" && r.explanation == Some(LooseExplanation)
    ensures r.exceptions == exceptions
  {
    Mistake("loose", "lose", exceptions, " ", after, Some(LooseExplanation))
  }

  /** What an `OfMistake` rule with the default exceptions does: it fires
      on " <modal> of " exactly when "of course" is absent, and its
      correction and explanation are the fixed ones. */
  lemma OfMistakeCheck(modal: string, text: string)
    ensures MatchString(OfMistake(modal)) == " " + modal + " of "
    ensures Check(OfMistake(modal), text).Some?
            <==> IsSubstring(" " + modal + " of ", text) && !IsSubstring("of course", text)
    ensures Check(OfMistake(modal), text).Some? ==> Check(OfMistake(modal), text).value == modal + " have"
    ensures Explain(OfMistake(modal)) == ExplanationPrefix + OfExplanation
  {
    var m := OfMistake(modal);
    if IsSubstring("of course", text) {
      assert IsSubstring(m.exceptions[0], text);
    }
  }

  /** An `OfMistake` rule given its own exceptions keeps exactly those. */
  lemma OfMistakeOwnExceptions(modal: string, exceptions: seq<string>, text: string)
    requires |exceptions| > 0
    ensures OfMistake(modal, exceptions).exceptions == exceptions
    ensures Check(OfMistake(modal, exceptions), text).Some?
            <==> IsSubstring(" " + modal + " of ", text)
                 && forall k :: 0 <= k < |exceptions| ==> !IsSubstring(exceptions[k], text)
  {
  }

  /** What a `LooseMistake` rule does: it fires on " loose<after>" unless
      one of its exceptions occurs, and corrects to "lose". */
  lemma LooseMistakeCheck(after: string, exceptions: seq<string>, text: string)
    ensures MatchString(LooseMistake(after, exceptions)) == " loose" + after
    ensures Check(LooseMistake(after, exceptions), text).Some?
            <==> IsSubstring(" loose" + after, text)
                 && forall k :: 0 <= k < |exceptions| ==> !IsSubstring(exceptions[k], text)
    ensures Check(LooseMistake(after, exceptions), text).Some? ==> Check(LooseMistake(after, exceptions), text).value == "lose"
    ensures Explain(LooseMistake(after, exceptions)) == ExplanationPrefix + LooseExplanation
  {
  }

  // ---------------------------------------------------------------------
  // Rule-level properties

  /** An exception anywhere in the text suppresses the rule, whether or
      not the match string is present. */
  lemma ExceptionDominates(m: Mistake, text: string, k: int)
    requires 0 <= k < |m.exceptions| && IsSubstring(m.exceptions[k], text)
    ensures Check(m, text) == None
  {
  }

  /** A rule without exceptions is never suppressed. */
  lemma NoExceptionsNeverSuppressed(m: Mistake, text: string)
    requires |m.exceptions| == 0
    ensures !IsException(m, text)
    ensures Check(m, text).Some? <==> IsSubstring(MatchString(m), text)
  {
  }

  /** A rule whose match string is not empty never fires on empty text. */
  lemma EmptyTextNeverMatches(m: Mistake)
    requires |MatchString(m)| > 0
    ensures Check(m, "") == None
  {
  }

  /** A rule whose match string holds a space never fires on text
      without one. */
  lemma NoSpaceNeverMatches(m: Mistake, text: string)
    requires ' ' in MatchString(m) && ' ' !in text
    ensures Check(m, text) == None
  {
    AbsentCharNotSubstring(MatchString(m), text, ' ');
  }

  // ---------------------------------------------------------------------
  // The catalog

  /** The `OfMistake` rules, first in the catalog. */
  const ModalRules: seq<Mistake> := [
    OfMistake("shouldn't"),
    OfMistake("couldn't"),
    OfMistake("wouldn't"),
    OfMistake("should"),
    OfMistake("would"),
    OfMistake("could"),
    OfMistake("must"),
    OfMistake("might", exceptions := ["the might of", "might of course", "might of the"])
  ]

  /** "to many" through "payed". */
  const QuantityRules: seq<Mistake> := [
    Mistake("to many", "too many", before := " way "),
    Mistake("to many", "too many", before := " far "),
    Mistake("to few", "too few", exceptions := ["available to few"]),
    Mistake("to much", "too much", before := " way "),
    Mistake("more then", "more than", exceptions := ["any more", "some more"],
            explanation := Some("If you didn't mean 'more than' you might have forgotten a comma.")),
    Mistake("less then", "less than", exceptions := ["any less"],
            explanation := Some("If you didn't mean 'less than' you might have forgotten a comma.")),
    Mistake("payed", "paid",
            explanation := Some("Payed means to seal something with wax, while paid means to give money."))
  ]

  /** The `LooseMistake` rules. */
  const LooseRules: seq<Mistake> := [
    LooseMistake(" my "),
    LooseMistake(" your "),
    LooseMistake(" his "),
    LooseMistake(" her "),
    LooseMistake(" their "),
    LooseMistake(" our "),
    LooseMistake(" its ")
  ]

  /** "could care less" through "unphased". */
  const IdiomRules: seq<Mistake> := [
    Mistake("could care less", "couldn't care less",
            exceptions := ["couldn't care less*", "couldn't*", "did you mean"],
            explanation := Some("If you could care less, you do care, which is the opposite of what you meant to say.")),
    Mistake("loosing", "losing",
            explanation := Some("Loose is an adjective meaning the opposite of tight, while lose is a verb.")),
    Mistake("looses", "loses",
            explanation := Some("Loose is an adjective meaning the opposite of tight, while lose is a verb.")),
    Mistake("irregardless", "regardless",
            explanation := Some("irregardless is not a word.")),
    Mistake("weary of", "wary of", before := " be ",
            explanation := Some("Weary means tired, while wary means cautious.")),
    Mistake("can't breath", "can't breathe",
            explanation := Some("Breath is a noun, while breathe is a verb.")),
    Mistake("intensive purposes", "intents and purposes",
            explanation := Some("This is likely due to mishearing of 'intents and purposes'.")),
    Mistake("sneak peak", "sneak peek",
            explanation := Some("peak is the top of a mountain, while peek is a quick look.")),
    Mistake("sneak peaks", "sneak peek",
            explanation := Some("peak is the top of a mountain, while peek is a quick look.")),
    Mistake("unphased", "unfazed",
            explanation := Some("Phased means to change, while fazed means to be surprised."))
  ]

  /** "epitamy" through "chocking", last in the catalog. */
  const WordRules: seq<Mistake> := [
    Mistake("epitamy", "epitome",
            explanation := Some("Epitamy is not a word.")),
    Mistake("no affect", "no effect",
            explanation := Some("affect is a verb meaning to influence, while effect is a noun meaning a result.")),
    Mistake("little affect", "little effect",
            explanation := Some("affect is a verb meaning to influence, while effect is a noun meaning a result.")),
    Mistake("peaked my interest", "piqued my interest",
            explanation := Some("Some people might have peaked in high school, but pique is a verb meaning to arouse interest.")),
    Mistake("peaked my curiosity", "piqued my curiosity",
            explanation := Some("Some people might have peaked in high school, but pique is a verb meaning to arouse interest.")),
    Mistake("apart of", "a part of",
            explanation := Some("\"apart\" is an adverb meaning separately, while \"a part\" is a noun meaning a portion.")),
    Mistake("queue", "cue", after := " the ",
            explanation := Some("queue is a line, while cue is a signal.")),
    Mistake("humanely possible", "humanly possible",
            explanation := Some("humane means kind, while human means relating to humans.")),
    Mistake("intimated by", "intimidated by",
            explanation := Some("intimate means \"closely acquianted\", while intimidate means to frighten.")),
    Mistake("per say", "per se",
            explanation := Some("per se is latin for \"by itself\".")),
    Mistake("chocking", "choking",
            explanation := Some("chocking means to block a wheel, while choking means to suffocate."))
  ]

  /** The bot's rules in priority order, written as five consecutive
      sections so that each can be reasoned about on its own; `Catalog`
      is their concatenation. */
  const Catalog: seq<Mistake> := ModalRules + QuantityRules + LooseRules + IdiomRules + WordRules

  /** Where each section sits in the catalog. */
  lemma CatalogLayout()
    ensures |ModalRules| == 8 && |QuantityRules| == 7 && |LooseRules| == 7
    ensures |IdiomRules| == 10 && |WordRules| == 11 && |Catalog| == 43
    ensures forall k :: 0 <= k < 8 ==> Catalog[k] == ModalRules[k]
    ensures forall k :: 0 <= k < 7 ==> Catalog[8 + k] == QuantityRules[k]
    ensures forall k :: 0 <= k < 7 ==> Catalog[15 + k] == LooseRules[k]
    ensures forall k :: 0 <= k < 10 ==> Catalog[22 + k] == IdiomRules[k]
    ensures forall k :: 0 <= k < 11 ==> Catalog[32 + k] == WordRules[k]
  {
  }

  /** The three parts of the match string of every catalog rule, section
      by section. */
  lemma ModalRulesPatterns()
    ensures |ModalRules| == 8
    ensures ModalRules[0].before == " " && ModalRules[0].mistake == "shouldn't" && ModalRules[0].after == " of "
    ensures ModalRules[1].before == " " && ModalRules[1].mistake == "couldn't" && ModalRules[1].after == " of "
    ensures ModalRules[2].before == " " && ModalRules[2].mistake == "wouldn't" && ModalRules[2].after == " of "
    ensures ModalRules[3].before == " " && ModalRules[3].mistake == "should" && ModalRules[3].after == " of "
    ensures ModalRules[4].before == " " && ModalRules[4].mistake == "would" && ModalRules[4].after == " of "
    ensures ModalRules[5].before == " " && ModalRules[5].mistake == "could" && ModalRules[5].after == " of "
    ensures ModalRules[6].before == " " && ModalRules[6].mistake == "must" && ModalRules[6].after == " of "
    ensures ModalRules[7].before == " " && ModalRules[7].mistake == "might" && ModalRules[7].after == " of "
  {
  }

  lemma QuantityRulesPatterns()
    ensures |QuantityRules| == 7
    ensures QuantityRules[0].before == " way " && QuantityRules[0].mistake == "to many" && QuantityRules[0].after == " "
    ensures QuantityRules[1].before == " far " && QuantityRules[1].mistake == "to many" && QuantityRules[1].after == " "
    ensures QuantityRules[2].before == " " && QuantityRules[2].mistake == "to few" && QuantityRules[2].after == " "
    ensures QuantityRules[3].before == " way " && QuantityRules[3].mistake == "to much" && QuantityRules[3].after == " "
    ensures QuantityRules[4].before == " " && QuantityRules[4].mistake == "more then" && QuantityRules[4].after == " "
    ensures QuantityRules[5].before == " " && QuantityRules[5].mistake == "less then" && QuantityRules[5].after == " "
    ensures QuantityRules[6].before == " " && QuantityRules[6].mistake == "payed" && QuantityRules[6].after == " "
  {
  }

  lemma LooseRulesPatterns()
    ensures |LooseRules| == 7
    ensures LooseRules[0].before == " " && LooseRules[0].mistake == "loose" && LooseRules[0].after == " my "
    ensures LooseRules[1].before == " " && LooseRules[1].mistake == "loose" && LooseRules[1].after == " your "
    ensures LooseRules[2].before == " " && LooseRules[2].mistake == "loose" && LooseRules[2].after == " his "
    ensures LooseRules[3].before == " " && LooseRules[3].mistake == "loose" && LooseRules[3].after == " her "
    ensures LooseRules[4].before == " " && LooseRules[4].mistake == "loose" && LooseRules[4].after == " their "
    ensures LooseRules[5].before == " " && LooseRules[5].mistake == "loose" && LooseRules[5].after == " our "
    ensures LooseRules[6].before == " " && LooseRules[6].mistake == "loose" && LooseRules[6].after == " its "
  {
  }

  lemma IdiomRulesPatterns()
    ensures |IdiomRules| == 10
    ensures IdiomRules[0].before == " " && IdiomRules[0].mistake == "could care less" && IdiomRules[0].after == " "
    ensures IdiomRules[1].before == " " && IdiomRules[1].mistake == "loosing" && IdiomRules[1].after == " "
    ensures IdiomRules[2].before == " " && IdiomRules[2].mistake == "looses" && IdiomRules[2].after == " "
    ensures IdiomRules[3].before == " " && IdiomRules[3].mistake == "irregardless" && IdiomRules[3].after == " "
    ensures IdiomRules[4].before == " be " && IdiomRules[4].mistake == "weary of" && IdiomRules[4].after == " "
    ensures IdiomRules[5].before == " " && IdiomRules[5].mistake == "can't breath" && IdiomRules[5].after == " "
    ensures IdiomRules[6].before == " " && IdiomRules[6].mistake == "intensive purposes" && IdiomRules[6].after == " "
    ensures IdiomRules[7].before == " " && IdiomRules[7].mistake == "sneak peak" && IdiomRules[7].after == " "
    ensures IdiomRules[8].before == " " && IdiomRules[8].mistake == "sneak peaks" && IdiomRules[8].after == " "
    ensures IdiomRules[9].before == " " && IdiomRules[9].mistake == "unphased" && IdiomRules[9].after == " "
  {
  }

  lemma WordRulesPatterns()
    ensures |WordRules| == 11
    ensures WordRules[0].before == " " && WordRules[0].mistake == "epitamy" && WordRules[0].after == " "
    ensures WordRules[1].before == " " && WordRules[1].mistake == "no affect" && WordRules[1].after == " "
    ensures WordRules[2].before == " " && WordRules[2].mistake == "little affect" && WordRules[2].after == " "
    ensures WordRules[3].before == " " && WordRules[3].mistake == "peaked my interest" && WordRules[3].after == " "
    ensures WordRules[4].before == " " && WordRules[4].mistake == "peaked my curiosity" && WordRules[4].after == " "
    ensures WordRules[5].before == " " && WordRules[5].mistake == "apart of" && WordRules[5].after == " "
    ensures WordRules[6].before == " " && WordRules[6].mistake == "queue" && WordRules[6].after == " the "
    ensures WordRules[7].before == " " && WordRules[7].mistake == "humanely possible" && WordRules[7].after == " "
    ensures WordRules[8].before == " " && WordRules[8].mistake == "intimated by" && WordRules[8].after == " "
    ensures WordRules[9].before == " " && WordRules[9].mistake == "per say" && WordRules[9].after == " "
    ensures WordRules[10].before == " " && WordRules[10].mistake == "chocking" && WordRules[10].after == " "
  {
  }

  /** Every catalog rule has a non-empty correction and a match string
      that starts with a space. */
  ghost predicate WellFormedRule(m: Mistake)
  {
    m.correction != "" && |MatchString(m)| > 0 && MatchString(m)[0] == ' '
  }

  ghost predicate AllWellFormed(rules: seq<Mistake>)
  {
    forall k :: 0 <= k < |rules| ==> WellFormedRule(rules[k])
  }

  lemma AllWellFormedAppend(a: seq<Mistake>, b: seq<Mistake>)
    requires AllWellFormed(a) && AllWellFormed(b)
    ensures AllWellFormed(a + b)
  {
    forall k | 0 <= k < |a + b| ensures WellFormedRule((a + b)[k]) {
      if k >= |a| {
        assert (a + b)[k] == b[k - |a|];
      }
    }
  }

  lemma ModalRulesWellFormed()
    ensures AllWellFormed(ModalRules)
  {
    forall k | 0 <= k < |ModalRules| ensures WellFormedRule(ModalRules[k]) {
      var m := ModalRules[k];
      assert m.correction == m.mistake + " have" && m.before == " ";
    }
  }

  lemma QuantityRulesWellFormed()
    ensures AllWellFormed(QuantityRules)
  {
  }

  lemma LooseRulesWellFormed()
    ensures AllWellFormed(LooseRules)
  {
  }

  lemma IdiomRulesWellFormed()
    ensures AllWellFormed(IdiomRules)
  {
  }

  lemma WordRulesWellFormed()
    ensures AllWellFormed(WordRules)
  {
  }

  lemma CatalogWellFormed()
    ensures |Catalog| == 43
    ensures AllWellFormed(Catalog)
  {
    ModalRulesWellFormed();
    QuantityRulesWellFormed();
    LooseRulesWellFormed();
    IdiomRulesWellFormed();
    WordRulesWellFormed();
    AllWellFormedAppend(ModalRules, QuantityRules);
    AllWellFormedAppend(ModalRules + QuantityRules, LooseRules);
    AllWellFormedAppend(ModalRules + QuantityRules + LooseRules, IdiomRules);
    AllWellFormedAppend(ModalRules + QuantityRules + LooseRules + IdiomRules, WordRules);
  }
}
