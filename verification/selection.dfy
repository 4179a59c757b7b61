/** The pure selection step of the bot's main loop: a comment body has
    its quoted lines removed and is lower-cased, then the catalog is
    scanned in order and the first rule whose check yields a non-empty
    correction supplies the correction, the explanation and the context.
    Reddit access, saving the comment and delivering the reply are left
    out. */
module Selection {
  import opened Wrappers
  import opened Strings
  import opened Mistakes

  /** A quoted line: one that starts with '>'. */
  predicate IsQuoted(line: string)
  {
    |line| > 0 && line[0] == '>'
  }

  /** The lines that are not quoted, in their original order. */
  function Unquoted(lines: seq<string>): (r: seq<string>)
    ensures |r| <= |lines|
    ensures forall k :: 0 <= k < |r| ==> !IsQuoted(r[k]) && r[k] in lines
    ensures forall k :: 0 <= k < |lines| && !IsQuoted(lines[k]) ==> lines[k] in r
  {
    if |lines| == 0 then []
    else if IsQuoted(lines[0]) then Unquoted(lines[1..])
    else [lines[0]] + Unquoted(lines[1..])
  }

  /** Filtering distributes over concatenation, so the kept lines stay in
      their original order. */
  lemma {:induction false} UnquotedAppend(a: seq<string>, b: seq<string>)
    ensures Unquoted(a + b) == Unquoted(a) + Unquoted(b)
  {
    if |a| > 0 {
      assert (a + b)[1..] == a[1..] + b;
      UnquotedAppend(a[1..], b);
    } else {
      assert a + b == b;
    }
  }

  /** A line list without quoted lines is left as it is. */
  lemma {:induction false} UnquotedKeepsAll(lines: seq<string>)
    requires forall k :: 0 <= k < |lines| ==> !IsQuoted(lines[k])
    ensures Unquoted(lines) == lines
  {
    if |lines| > 0 {
      UnquotedKeepsAll(lines[1..]);
    }
  }

  /** The body without its quoted lines: split at newlines, drop the
      lines that start with '>', join the rest with newlines. The lines
      of the result are exactly the unquoted lines of the body, in order;
      when every line is quoted the result is "". */
  function StripQuotes(body: string): (r: string)
    ensures Unquoted(Split(body, '\n')) == [] ==> r == ""
    ensures Unquoted(Split(body, '\n')) != [] ==> Split(r, '\n') == Unquoted(Split(body, '\n'))
    ensures forall k :: 0 <= k < |Split(r, '\n')| ==> !IsQuoted(Split(r, '\n')[k])
  {
    var kept := Unquoted(Split(body, '\n'));
    if kept != [] then
      SplitJoin(kept, '\n');
      Join(kept, '\n')
    else
      assert Split("", '\n') == [""];
      Join(kept, '\n')
  }

  /** A body without quoted lines passes through unchanged. */
  lemma StripQuotesNoQuotes(body: string)
    requires forall k :: 0 <= k < |Split(body, '\n')| ==> !IsQuoted(Split(body, '\n')[k])
    ensures StripQuotes(body) == body
  {
    UnquotedKeepsAll(Split(body, '\n'));
    JoinSplit(body, '\n');
  }

  /** The text every rule is checked against: the body without its
      quoted lines, lower-cased. It holds no upper-case letter, and its
      lines are the unquoted lines of the body, each lower-cased. */
  function Prepare(body: string): (r: string)
    ensures forall i :: 0 <= i < |r| ==> !IsUpper(r[i])
    ensures Unquoted(Split(body, '\n')) == [] ==> r == ""
    ensures Unquoted(Split(body, '\n')) != [] ==> Split(r, '\n') == LowerEach(Unquoted(Split(body, '\n')))
  {
    var stripped := StripQuotes(body);
    LowerSplit(stripped, '\n');
    Lower(stripped)
  }

  /** A one-line body that is not a quote is only lower-cased. */
  lemma PrepareSingleLine(body: string)
    requires '\n' !in body && !IsQuoted(body)
    ensures Prepare(body) == Lower(body)
  {
    SplitWithoutSep(body, '\n');
  }

  /** A one-line, unquoted body that starts with an upper-case letter
      and has no other: only that letter changes. */
  lemma PrepareSentence(body: string, c: char, rest: string)
    requires body == [c] + rest && IsUpper(c) && '\n' !in rest
    requires forall d :: d in rest ==> !IsUpper(d)
    ensures Prepare(body) == [LowerChar(c)] + rest
  {
    assert body[0] == c && '\n' !in [c];
    PrepareSingleLine(body);
    LowerAppend([c], rest);
    LowerUnchanged(rest);
    assert Lower([c]) == [LowerChar(c)];
  }

  /** The bot acts on a rule only when its check yields a non-empty
      correction; an empty correction counts as none. */
  predicate Fires(m: Mistake, text: string)
    ensures Fires(m, text) <==> IsSubstring(MatchString(m), text) && !Suppressed(m, text) && m.correction != ""
  {
    var c := Check(m, text);
    c.Some? && c.value != ""
  }

  /** Rule `k` is the first rule of `rules` that fires on `text`. */
  ghost predicate FirstFiring(rules: seq<Mistake>, text: string, k: int)
  {
    0 <= k < |rules| && Fires(rules[k], text) && forall j :: 0 <= j < k ==> !Fires(rules[j], text)
  }

  function FirstMatchFrom(rules: seq<Mistake>, text: string, from: nat): (r: Option<nat>)
    requires from <= |rules|
    decreases |rules| - from
    ensures r.Some? ==> from <= r.value < |rules| && Fires(rules[r.value], text)
    ensures r.Some? ==> forall j :: from <= j < r.value ==> !Fires(rules[j], text)
    ensures r.None? ==> forall j :: from <= j < |rules| ==> !Fires(rules[j], text)
  {
    if from == |rules| then None
    else if Fires(rules[from], text) then Some(from)
    else FirstMatchFrom(rules, text, from + 1)
  }

  /** The index of the first rule, in catalog order, that fires; `None`
      when no rule fires. */
  function FirstMatch(rules: seq<Mistake>, text: string): (r: Option<nat>)
    ensures r.Some? <==> exists k :: 0 <= k < |rules| && Fires(rules[k], text)
    ensures r.Some? ==> FirstFiring(rules, text, r.value)
  {
    FirstMatchFrom(rules, text, 0)
  }

  /** The first firing rule is unique. */
  lemma FirstFiringUnique(rules: seq<Mistake>, text: string, k1: int, k2: int)
    requires FirstFiring(rules, text, k1) && FirstFiring(rules, text, k2)
    ensures k1 == k2
  {
  }

  /** A rule that fires, with no rule before it firing, is the first
      match. */
  lemma FirstMatchIs(rules: seq<Mistake>, text: string, k: nat)
    requires k < |rules| && Fires(rules[k], text)
    requires forall j :: 0 <= j < k ==> !Fires(rules[j], text)
    ensures FirstMatch(rules, text) == Some(k)
  {
    FirstFiringUnique(rules, text, k, FirstMatch(rules, text).value);
  }

  /** Priority composes: on `a + b` the first match is the first match
      of `a` if there is one, otherwise the first match of `b` shifted
      past `a`. Rules of `a` shadow every rule of `b`. */
  lemma FirstMatchAppend(a: seq<Mistake>, b: seq<Mistake>, text: string)
    ensures FirstMatch(a + b, text) ==
            match FirstMatch(a, text)
            case Some(k) => Some(k)
            case None => match FirstMatch(b, text)
                         case Some(k) => Some(|a| + k)
                         case None => None
  {
    var ab := a + b;
    match FirstMatch(a, text)
    case Some(k) =>
      assert FirstFiring(ab, text, k) by {
        forall j | 0 <= j < k ensures !Fires(ab[j], text) {
          assert ab[j] == a[j];
        }
        assert ab[k] == a[k];
      }
      FirstFiringUnique(ab, text, k, FirstMatch(ab, text).value);
    case None =>
      match FirstMatch(b, text)
      case Some(k) =>
        assert FirstFiring(ab, text, |a| + k) by {
          forall j | 0 <= j < |a| + k ensures !Fires(ab[j], text) {
            if j < |a| { assert ab[j] == a[j]; } else { assert ab[j] == b[j - |a|]; }
          }
          assert ab[|a| + k] == b[k];
        }
        FirstFiringUnique(ab, text, |a| + k, FirstMatch(ab, text).value);
      case None =>
        forall j | 0 <= j < |ab| ensures !Fires(ab[j], text) {
          if j < |a| { assert ab[j] == a[j]; } else { assert ab[j] == b[j - |a|]; }
        }
  }

  /** What the bot passes to `send_correction`. */
  datatype Correction = Correction(correction: string, explanation: string, context: string)

  /** One pass of the main loop over a comment, without the I/O: the
      correction, explanation and context of the first firing rule, all
      computed from the same prepared text that was checked. */
  function Select(rules: seq<Mistake>, body: string): (r: Option<Correction>)
    ensures r.None? <==> forall k :: 0 <= k < |rules| ==> !Fires(rules[k], Prepare(body))
    ensures r.Some? ==>
              exists k :: FirstFiring(rules, Prepare(body), k)
                          && r.value == Correction(rules[k].correction, Explain(rules[k]),
                                                   FindContext(rules[k], Prepare(body)))
  {
    var text := Prepare(body);
    match FirstMatch(rules, text)
    case None => None
    case Some(k) =>
      Some(Correction(Check(rules[k], text).value, Explain(rules[k]), FindContext(rules[k], text)))
  }

  /** Once the first match is known, the selected correction is that
      rule's correction, explanation and context. */
  lemma SelectIs(rules: seq<Mistake>, body: string, k: nat)
    requires FirstMatch(rules, Prepare(body)) == Some(k)
    ensures k < |rules| && IsSubstring(MatchString(rules[k]), Prepare(body))
    ensures Select(rules, body) == Some(Correction(rules[k].correction, Explain(rules[k]),
                                                   FindContext(rules[k], Prepare(body))))
  {
    var r := Select(rules, body);
    var k' :| FirstFiring(rules, Prepare(body), k') && r.value == Correction(rules[k'].correction, Explain(rules[k']),
                                                                              FindContext(rules[k'], Prepare(body)));
    FirstFiringUnique(rules, Prepare(body), k, k');
  }

  /** The main loop as the bot runs it: the body is re-prepared for
      every rule, and the scan stops at the first non-empty correction. */
  method SelectCorrection(rules: seq<Mistake>, body: string) returns (r: Option<Correction>)
    ensures r.None? <==> forall k :: 0 <= k < |rules| ==> !Fires(rules[k], Prepare(body))
    ensures r == Select(rules, body)
  {
    for k := 0 to |rules|
      invariant forall j :: 0 <= j < k ==> !Fires(rules[j], Prepare(body))
    {
      var commentWithoutQuotes := Lower(StripQuotes(body));
      var correction := Check(rules[k], commentWithoutQuotes);
      if correction.Some? && correction.value != "" {
        var explanation := Explain(rules[k]);
        var context := FindContext(rules[k], commentWithoutQuotes);
        assert FirstFiring(rules, Prepare(body), k);
        FirstFiringUnique(rules, Prepare(body), k, FirstMatch(rules, Prepare(body)).value);
        return Some(Correction(correction.value, explanation, context));
      }
    }
    return None;
  }

  /** In the catalog every correction is non-empty, so a catalog rule
      fires exactly when its `check` returns a correction. */
  lemma CatalogFiresIffChecks(text: string, k: int)
    requires 0 <= k < |Catalog|
    ensures Fires(Catalog[k], text) <==> Check(Catalog[k], text).Some?
  {
    CatalogWellFormed();
    assert WellFormedRule(Catalog[k]);
  }

  /** Empty text, or text without a single space, gets no correction
      from the catalog. */
  lemma CatalogIgnoresSpacelessText(text: string)
    requires ' ' !in text
    ensures FirstMatch(Catalog, text) == None
  {
    CatalogWellFormed();
    forall k | 0 <= k < |Catalog| ensures !Fires(Catalog[k], text) {
      assert WellFormedRule(Catalog[k]);
      NoSpaceNeverMatches(Catalog[k], text);
    }
  }
}
