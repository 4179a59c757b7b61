/** The expectations of `tests/test_mistakes.py`, proved about the model.
    The tests import a later revision (`MistakeChecker.find_mistake`,
    `get_correction`, `get_explanation`); here `find_mistake` is `Select`
    over `Catalog`, `get_correction` is the rule's correction and
    `get_explanation` is `Explain`.

    The proofs never search a literal text. Each scenario is assembled
    from small lemmas, one fact each:
    - `...Cut...` and `...Char...` lemmas split the text into pieces;
    - `...Absent`, `...Occurs`, `...Excepted` and `...Lacks` lemmas say
      whether one match string or exception occurs, by the generic
      lemmas of `Strings`: a match string is absent when one of its
      characters is missing from the text, or when a character that
      occurs once in the text fixes the only place it could start and the
      text differs there;
    - `...First`, `...Start`, `...End` and `...Span` give the first
      occurrence and the context bounds;
    - a section lemma (`...Modal`, `...Quantity`, ...) turns the facts into
      the first match within one section of the catalog, the `...Scan`
      lemma composes the sections with `FirstMatchAppend`, and the
      scenario lemma itself adds `Prepare` and `Select`. */
module Scenarios {
  import opened Wrappers
  import opened Strings
  import opened Mistakes
  import opened Selection

  /** `mistake1` of the rule tests. */
  const Shouldnt := OfMistake("shouldn't")

  /** `mistake2` of the rule tests. */
  const MoreThen := Mistake("more then", "more than", exceptions := ["any more", "some more"],
                            explanation := Some("If you didn't mean 'more than' you might have forgotten a comma."))

  /** `get_correction` and `get_explanation` of `mistake1`: the
      explanation is "Explanation: " followed by the shared modal text. */
  lemma ShouldntAccessors()
    ensures Shouldnt.correction == "shouldn't have"
    ensures Explain(Shouldnt) == "Explanation: " + OfExplanation
  {
  }

  /** `get_correction` and `get_explanation` of `mistake2`. */
  lemma MoreThenAccessors()
    ensures MoreThen.correction == "more than"
    ensures Explain(MoreThen) == "Explanation: " + "If you didn't mean 'more than' you might have forgotten a comma."
  {
  }

  /** `mistake2` is also the catalog's "more then" rule. */
  lemma MoreThenInCatalog()
    ensures Catalog[12] == MoreThen
  {
    CatalogLayout();
    QuantityRulesEntry4();
  }

  /** "of course" suppresses `OfMistake("shouldn't")`; the context still reaches the end of "course". */
  lemma ShouldntOfCourse(text: string)
    requires text == "I shouldn't of course do that"
    ensures IsException(Shouldnt, text)
    ensures Check(Shouldnt, text) == None
    ensures IsSubstring(MatchString(Shouldnt), text) && FindContext(Shouldnt, text) == "I shouldn't of course"
  {
    assert Shouldnt.before == " " && Shouldnt.mistake == "shouldn't" && Shouldnt.after == " of ";
    assert Shouldnt.exceptions == ["of course"];
    ShouldntOfCourseException(text);
    ExceptionDominates(Shouldnt, text, 0);
    ShouldntOfCourseFirst(text);
    ShouldntOfCourseStart(text);
    ShouldntOfCourseEnd(text);
    ShouldntOfCourseSpan(text);
    FindContextIs(Shouldnt, text, 1, 0, 21);
  }

  lemma ShouldntOfCourseCut12_21(text: string)
    requires text == "I shouldn't of course do that"
    ensures text == "I shouldn't " + "of course" + " do that"
  {
  }

  lemma ShouldntOfCourseException(text: string)
    requires text == "I shouldn't of course do that"
    ensures IsSubstring("of course", text)
  {
    ShouldntOfCourseCut12_21(text);
    OccursInConcat("I shouldn't ", "of course", " do that");
  }

  lemma ShouldntOfCourseCut1_15(text: string)
    requires text == "I shouldn't of course do that"
    ensures text == "I" + " shouldn't of " + "course do that"
  {
  }

  lemma ShouldntOfCourseFirst(text: string)
    requires text == "I shouldn't of course do that"
    ensures FirstOccurrence(" " + "shouldn't" + " of ", text, 1)
  {
    ShouldntOfCourseCut1_15(text);
    assert " " + "shouldn't" + " of " == " shouldn't of ";
    FirstInConcat("I", " shouldn't of ", "course do that", 0);
  }

  lemma ShouldntOfCourseStart(text: string)
    requires text == "I shouldn't of course do that"
    ensures ContextStart(text, 1, 0)
  {
    assert text[..1] == "I";
    ContextStartAtFront(text, 1);
  }

  lemma ShouldntOfCourseCut15_21(text: string)
    requires text == "I shouldn't of course do that"
    ensures text == "I shouldn't of " + "course" + " do that"
  {
  }

  lemma ShouldntOfCourseEnd(text: string)
    requires text == "I shouldn't of course do that"
    ensures ContextEnd(text, 15, 21)
  {
    ShouldntOfCourseCut15_21(text);
    ContextEndInConcat("I shouldn't of ", "course", " do that");
  }

  lemma ShouldntOfCourseSpan(text: string)
    requires text == "I shouldn't of course do that"
    ensures text[0..21] == "I shouldn't of course"
  {
    assert text[..21] == "I shouldn't of course";
  }

  /** `OfMistake("shouldn't")` fires on "I shouldn't of done that" with context "I shouldn't of done". */
  lemma ShouldntOfDone(text: string)
    requires text == "I shouldn't of done that"
    ensures !IsException(Shouldnt, text)
    ensures Check(Shouldnt, text) == Some(Shouldnt.correction)
    ensures IsSubstring(MatchString(Shouldnt), text) && FindContext(Shouldnt, text) == "I shouldn't of done"
  {
    assert Shouldnt.before == " " && Shouldnt.mistake == "shouldn't" && Shouldnt.after == " of ";
    assert Shouldnt.exceptions == ["of course"];
    ShouldntOfDoneLacks0(text);
    ShouldntOfDoneFirst(text);
    ShouldntOfDoneStart(text);
    ShouldntOfDoneEnd(text);
    ShouldntOfDoneSpan(text);
    FindContextIs(Shouldnt, text, 1, 0, 19);
  }

  lemma ShouldntOfDoneLacks0(text: string)
    requires text == "I shouldn't of done that"
    ensures !IsSubstring("of course", text)
  {
    AbsentCharNotSubstring("of course", text, 'c');
  }

  lemma ShouldntOfDoneCut1_15(text: string)
    requires text == "I shouldn't of done that"
    ensures text == "I" + " shouldn't of " + "done that"
  {
  }

  lemma ShouldntOfDoneFirst(text: string)
    requires text == "I shouldn't of done that"
    ensures FirstOccurrence(" " + "shouldn't" + " of ", text, 1)
  {
    ShouldntOfDoneCut1_15(text);
    assert " " + "shouldn't" + " of " == " shouldn't of ";
    FirstInConcat("I", " shouldn't of ", "done that", 0);
  }

  lemma ShouldntOfDoneStart(text: string)
    requires text == "I shouldn't of done that"
    ensures ContextStart(text, 1, 0)
  {
    assert text[..1] == "I";
    ContextStartAtFront(text, 1);
  }

  lemma ShouldntOfDoneCut15_19(text: string)
    requires text == "I shouldn't of done that"
    ensures text == "I shouldn't of " + "done" + " that"
  {
  }

  lemma ShouldntOfDoneEnd(text: string)
    requires text == "I shouldn't of done that"
    ensures ContextEnd(text, 15, 19)
  {
    ShouldntOfDoneCut15_19(text);
    ContextEndInConcat("I shouldn't of ", "done", " that");
  }

  lemma ShouldntOfDoneSpan(text: string)
    requires text == "I shouldn't of done that"
    ensures text[0..19] == "I shouldn't of done"
  {
    assert text[..19] == "I shouldn't of done";
  }

  /** "any more" suppresses the "more then" rule; its context starts at the space before "any". */
  lemma AnyMoreThen(text: string)
    requires text == "If I don't like it any more then I will leave"
    ensures IsException(MoreThen, text)
    ensures Check(MoreThen, text) == None
    ensures IsSubstring(MatchString(MoreThen), text) && FindContext(MoreThen, text) == " any more then I"
  {
    assert MoreThen.before == " " && MoreThen.mistake == "more then" && MoreThen.after == " ";
    assert MoreThen.exceptions == ["any more", "some more"];
    AnyMoreThenException(text);
    ExceptionDominates(MoreThen, text, 0);
    AnyMoreThenFirst(text);
    AnyMoreThenStart(text);
    AnyMoreThenEnd(text);
    AnyMoreThenSpan(text);
    FindContextIs(MoreThen, text, 22, 18, 34);
  }

  lemma AnyMoreThenCut19_27(text: string)
    requires text == "If I don't like it any more then I will leave"
    ensures text == "If I don't like it " + "any more" + " then I will leave"
  {
  }

  lemma AnyMoreThenException(text: string)
    requires text == "If I don't like it any more then I will leave"
    ensures IsSubstring("any more", text)
  {
    AnyMoreThenCut19_27(text);
    OccursInConcat("If I don't like it ", "any more", " then I will leave");
  }

  lemma AnyMoreThenCut22_33(text: string)
    requires text == "If I don't like it any more then I will leave"
    ensures text == "If I don't like it any" + " more then " + "I will leave"
  {
  }

  lemma AnyMoreThenFirst(text: string)
    requires text == "If I don't like it any more then I will leave"
    ensures FirstOccurrence(" " + "more then" + " ", text, 22)
  {
    AnyMoreThenCut22_33(text);
    assert " " + "more then" + " " == " more then ";
    FirstInConcat("If I don't like it any", " more then ", "I will leave", 1);
  }

  lemma AnyMoreThenCut19_22(text: string)
    requires text == "If I don't like it any more then I will leave"
    ensures text == "If I don't like it " + "any" + " more then I will leave"
  {
  }

  lemma AnyMoreThenStart(text: string)
    requires text == "If I don't like it any more then I will leave"
    ensures ContextStart(text, 22, 18)
  {
    AnyMoreThenCut19_22(text);
    ContextStartInConcat("If I don't like it ", "any", " more then I will leave");
  }

  lemma AnyMoreThenCut33_34(text: string)
    requires text == "If I don't like it any more then I will leave"
    ensures text == "If I don't like it any more then " + "I" + " will leave"
  {
  }

  lemma AnyMoreThenEnd(text: string)
    requires text == "If I don't like it any more then I will leave"
    ensures ContextEnd(text, 33, 34)
  {
    AnyMoreThenCut33_34(text);
    ContextEndInConcat("If I don't like it any more then ", "I", " will leave");
  }

  lemma AnyMoreThenCut18_34(text: string)
    requires text == "If I don't like it any more then I will leave"
    ensures text == "If I don't like it" + " any more then I" + " will leave"
  {
  }

  lemma AnyMoreThenSpan(text: string)
    requires text == "If I don't like it any more then I will leave"
    ensures text[18..34] == " any more then I"
  {
    AnyMoreThenCut18_34(text);
    OccursInConcat("If I don't like it", " any more then I", " will leave");
  }

  /** The "more then" rule fires on "a lot more then that"; its context runs to the end of the text. */
  lemma LotMoreThen(text: string)
    requires text == "a lot more then that"
    ensures !IsException(MoreThen, text)
    ensures Check(MoreThen, text) == Some(MoreThen.correction)
    ensures IsSubstring(MatchString(MoreThen), text) && FindContext(MoreThen, text) == " lot more then that"
  {
    assert MoreThen.before == " " && MoreThen.mistake == "more then" && MoreThen.after == " ";
    assert MoreThen.exceptions == ["any more", "some more"];
    LotMoreThenLacks0(text);
    LotMoreThenLacks1(text);
    LotMoreThenFirst(text);
    LotMoreThenStart(text);
    LotMoreThenEnd(text);
    LotMoreThenSpan(text);
    FindContextIs(MoreThen, text, 5, 1, 20);
  }

  lemma LotMoreThenLacks0(text: string)
    requires text == "a lot more then that"
    ensures !IsSubstring("any more", text)
  {
    AbsentCharNotSubstring("any more", text, 'y');
  }

  lemma LotMoreThenLacks1(text: string)
    requires text == "a lot more then that"
    ensures !IsSubstring("some more", text)
  {
    AbsentCharNotSubstring("some more", text, 's');
  }

  lemma LotMoreThenCut5_16(text: string)
    requires text == "a lot more then that"
    ensures text == "a lot" + " more then " + "that"
  {
  }

  lemma LotMoreThenFirst(text: string)
    requires text == "a lot more then that"
    ensures FirstOccurrence(" " + "more then" + " ", text, 5)
  {
    LotMoreThenCut5_16(text);
    assert " " + "more then" + " " == " more then ";
    FirstInConcat("a lot", " more then ", "that", 1);
  }

  lemma LotMoreThenCut2_5(text: string)
    requires text == "a lot more then that"
    ensures text == "a " + "lot" + " more then that"
  {
  }

  lemma LotMoreThenStart(text: string)
    requires text == "a lot more then that"
    ensures ContextStart(text, 5, 1)
  {
    LotMoreThenCut2_5(text);
    ContextStartInConcat("a ", "lot", " more then that");
  }

  lemma LotMoreThenCut16_20(text: string)
    requires text == "a lot more then that"
    ensures text == "a lot more then " + "that"
  {
  }

  lemma LotMoreThenEnd(text: string)
    requires text == "a lot more then that"
    ensures ContextEnd(text, 16, 20)
  {
    LotMoreThenCut16_20(text);
    ContextEndAtEnd("a lot more then ", "that");
  }

  lemma LotMoreThenCut1_20(text: string)
    requires text == "a lot more then that"
    ensures text == "a" + " lot more then that"
  {
  }

  lemma LotMoreThenSpan(text: string)
    requires text == "a lot more then that"
    ensures text[1..20] == " lot more then that"
  {
    LotMoreThenCut1_20(text);
    OccursAtEnd("a", " lot more then that");
  }

  /** "I should of done that" is corrected to "should have" with the shared modal explanation. */
  lemma ShouldOfDoneThat(body: string)
    requires body == "I should of done that"
    ensures Select(Catalog, body) == Some(Correction("should have", ExplanationPrefix + OfExplanation, "i should of done"))
  {
    ShouldOfDoneThatPrepared(body);
    ShouldOfDoneThatScan(Prepare(body));
    SelectIs(Catalog, body, 3);
    ShouldOfDoneThatRule(Prepare(body));
  }

  lemma ShouldOfDoneThatModal0Absent(text: string)
    requires text == "i should of done that"
    ensures !IsSubstring(" " + "shouldn't" + " of ", text)
  {
    AbsentPieceNotSubstring(" ", "shouldn't", " of ", text, 7);
  }

  lemma ShouldOfDoneThatModal1Absent(text: string)
    requires text == "i should of done that"
    ensures !IsSubstring(" " + "couldn't" + " of ", text)
  {
    AbsentPieceNotSubstring(" ", "couldn't", " of ", text, 0);
  }

  lemma ShouldOfDoneThatModal2Absent(text: string)
    requires text == "i should of done that"
    ensures !IsSubstring(" " + "wouldn't" + " of ", text)
  {
    AbsentPieceNotSubstring(" ", "wouldn't", " of ", text, 0);
  }

  lemma ShouldOfDoneThatCut1_12(text: string)
    requires text == "i should of done that"
    ensures text == "i" + " should of " + "done that"
  {
  }

  lemma ShouldOfDoneThatModal3Occurs(text: string)
    requires text == "i should of done that"
    ensures IsSubstring(" " + "should" + " of ", text)
  {
    ShouldOfDoneThatCut1_12(text);
    assert " " + "should" + " of " == " should of ";
    OccursInConcat("i", " should of ", "done that");
  }

  lemma ShouldOfDoneThatModal3Lacks0(text: string)
    requires text == "i should of done that"
    ensures !IsSubstring("of course", text)
  {
    AbsentCharNotSubstring("of course", text, 'c');
  }

  lemma ShouldOfDoneThatModal(text: string)
    requires text == "i should of done that"
    ensures FirstMatch(ModalRules, text) == Some(3)
  {
    ModalRulesPatterns();
    ShouldOfDoneThatModal0Absent(text);
    ShouldOfDoneThatModal1Absent(text);
    ShouldOfDoneThatModal2Absent(text);
    ShouldOfDoneThatModal3Occurs(text);
    ShouldOfDoneThatModal3Lacks0(text);
    assert !Fires(ModalRules[0], text);
    assert !Fires(ModalRules[1], text);
    assert !Fires(ModalRules[2], text);
    ModalRulesEntry3();
    FirstMatchIs(ModalRules, text, 3);
  }

  lemma ShouldOfDoneThatScan(text: string)
    requires text == "i should of done that"
    ensures FirstMatch(Catalog, text) == Some(3)
  {
    CatalogLayout();
    ShouldOfDoneThatModal(text);
    FirstMatchAppend(ModalRules, QuantityRules, text);
    FirstMatchAppend(ModalRules + QuantityRules, LooseRules, text);
    FirstMatchAppend(ModalRules + QuantityRules + LooseRules, IdiomRules, text);
    FirstMatchAppend(ModalRules + QuantityRules + LooseRules + IdiomRules, WordRules, text);
  }

  lemma ShouldOfDoneThatHead(body: string)
    requires body == "I should of done that"
    ensures body == ['I'] + " should of done that"
  {
  }

  lemma ShouldOfDoneThatRest(rest: string)
    requires rest == " should of done that"
    ensures '\n' !in rest && forall d :: d in rest ==> !IsUpper(d)
  {
  }

  lemma ShouldOfDoneThatLowered()
    ensures [LowerChar('I')] + " should of done that" == "i should of done that"
  {
    assert LowerChar('I') == 'i';
  }

  lemma ShouldOfDoneThatPrepared(body: string)
    requires body == "I should of done that"
    ensures Prepare(body) == "i should of done that"
  {
    ShouldOfDoneThatHead(body);
    ShouldOfDoneThatRest(" should of done that");
    PrepareSentence(body, 'I', " should of done that");
    ShouldOfDoneThatLowered();
  }

  lemma ShouldOfDoneThatFirst(text: string)
    requires text == "i should of done that"
    ensures FirstOccurrence(" " + "should" + " of ", text, 1)
  {
    ShouldOfDoneThatCut1_12(text);
    assert " " + "should" + " of " == " should of ";
    FirstInConcat("i", " should of ", "done that", 0);
  }

  lemma ShouldOfDoneThatStart(text: string)
    requires text == "i should of done that"
    ensures ContextStart(text, 1, 0)
  {
    assert text[..1] == "i";
    ContextStartAtFront(text, 1);
  }

  lemma ShouldOfDoneThatCut12_16(text: string)
    requires text == "i should of done that"
    ensures text == "i should of " + "done" + " that"
  {
  }

  lemma ShouldOfDoneThatEnd(text: string)
    requires text == "i should of done that"
    ensures ContextEnd(text, 12, 16)
  {
    ShouldOfDoneThatCut12_16(text);
    ContextEndInConcat("i should of ", "done", " that");
  }

  lemma ShouldOfDoneThatSpan(text: string)
    requires text == "i should of done that"
    ensures text[0..16] == "i should of done"
  {
    assert text[..16] == "i should of done";
  }

  lemma ShouldOfDoneThatContext(text: string)
    requires text == "i should of done that"
    ensures IsSubstring(MatchString(ModalRules[3]), text) && FindContext(ModalRules[3], text) == "i should of done"
  {
    ModalRulesPatterns();
    ShouldOfDoneThatFirst(text);
    ShouldOfDoneThatStart(text);
    ShouldOfDoneThatEnd(text);
    ShouldOfDoneThatSpan(text);
    FindContextIs(ModalRules[3], text, 1, 0, 16);
  }

  lemma ShouldOfDoneThatRule(text: string)
    requires text == "i should of done that"
    ensures Catalog[3].correction == "should have" && Explain(Catalog[3]) == ExplanationPrefix + OfExplanation
    ensures IsSubstring(MatchString(Catalog[3]), text) && FindContext(Catalog[3], text) == "i should of done"
  {
    CatalogLayout();
    ModalRulesEntry3();
    ShouldOfDoneThatContext(text);
  }

  /** "I loose my mind" is corrected to "lose". */
  lemma LooseMyMind(body: string)
    requires body == "I loose my mind"
    ensures Select(Catalog, body) == Some(Correction("lose", ExplanationPrefix + LooseExplanation, "i loose my mind"))
  {
    LooseMyMindPrepared(body);
    LooseMyMindScan(Prepare(body));
    SelectIs(Catalog, body, 15);
    LooseMyMindRule(Prepare(body));
  }

  lemma LooseMyMindModal0Absent(text: string)
    requires text == "i loose my mind"
    ensures !IsSubstring(" " + "shouldn't" + " of ", text)
  {
    AbsentPieceNotSubstring(" ", "shouldn't", " of ", text, 1);
  }

  lemma LooseMyMindModal1Absent(text: string)
    requires text == "i loose my mind"
    ensures !IsSubstring(" " + "couldn't" + " of ", text)
  {
    AbsentPieceNotSubstring(" ", "couldn't", " of ", text, 0);
  }

  lemma LooseMyMindModal2Absent(text: string)
    requires text == "i loose my mind"
    ensures !IsSubstring(" " + "wouldn't" + " of ", text)
  {
    AbsentPieceNotSubstring(" ", "wouldn't", " of ", text, 0);
  }

  lemma LooseMyMindModal3Absent(text: string)
    requires text == "i loose my mind"
    ensures !IsSubstring(" " + "should" + " of ", text)
  {
    AbsentPieceNotSubstring(" ", "should", " of ", text, 1);
  }

  lemma LooseMyMindModal4Absent(text: string)
    requires text == "i loose my mind"
    ensures !IsSubstring(" " + "would" + " of ", text)
  {
    AbsentPieceNotSubstring(" ", "would", " of ", text, 0);
  }

  lemma LooseMyMindModal5Absent(text: string)
    requires text == "i loose my mind"
    ensures !IsSubstring(" " + "could" + " of ", text)
  {
    AbsentPieceNotSubstring(" ", "could", " of ", text, 0);
  }

  lemma LooseMyMindModal6Absent(text: string)
    requires text == "i loose my mind"
    ensures !IsSubstring(" " + "must" + " of ", text)
  {
    AbsentPieceNotSubstring(" ", "must", " of ", text, 1);
  }

  lemma LooseMyMindModal7Absent(text: string)
    requires text == "i loose my mind"
    ensures !IsSubstring(" " + "might" + " of ", text)
  {
    AbsentPieceNotSubstring(" ", "might", " of ", text, 2);
  }

  lemma LooseMyMindModal(text: string)
    requires text == "i loose my mind"
    ensures FirstMatch(ModalRules, text) == None
  {
    ModalRulesPatterns();
    LooseMyMindModal0Absent(text);
    LooseMyMindModal1Absent(text);
    LooseMyMindModal2Absent(text);
    LooseMyMindModal3Absent(text);
    LooseMyMindModal4Absent(text);
    LooseMyMindModal5Absent(text);
    LooseMyMindModal6Absent(text);
    LooseMyMindModal7Absent(text);
    assert !Fires(ModalRules[0], text);
    assert !Fires(ModalRules[1], text);
    assert !Fires(ModalRules[2], text);
    assert !Fires(ModalRules[3], text);
    assert !Fires(ModalRules[4], text);
    assert !Fires(ModalRules[5], text);
    assert !Fires(ModalRules[6], text);
    assert !Fires(ModalRules[7], text);
  }

  lemma LooseMyMindQuantity0Absent(text: string)
    requires text == "i loose my mind"
    ensures !IsSubstring(" way " + "to many" + " ", text)
  {
    AbsentPieceNotSubstring(" way ", "to many", " ", text, 0);
  }

  lemma LooseMyMindQuantity1Absent(text: string)
    requires text == "i loose my mind"
    ensures !IsSubstring(" far " + "to many" + " ", text)
  {
    AbsentPieceNotSubstring(" far ", "to many", " ", text, 0);
  }

  lemma LooseMyMindQuantity2Absent(text: string)
    requires text == "i loose my mind"
    ensures !IsSubstring(" " + "to few" + " ", text)
  {
    AbsentPieceNotSubstring(" ", "to few", " ", text, 0);
  }

  lemma LooseMyMindQuantity3Absent(text: string)
    requires text == "i loose my mind"
    ensures !IsSubstring(" way " + "to much" + " ", text)
  {
    AbsentPieceNotSubstring(" way ", "to much", " ", text, 0);
  }

  lemma LooseMyMindQuantity4Absent(text: string)
    requires text == "i loose my mind"
    ensures !IsSubstring(" " + "more then" + " ", text)
  {
    AbsentPieceNotSubstring(" ", "more then", " ", text, 2);
  }

  lemma LooseMyMindQuantity5Absent(text: string)
    requires text == "i loose my mind"
    ensures !IsSubstring(" " + "less then" + " ", text)
  {
    AbsentPieceNotSubstring(" ", "less then", " ", text, 5);
  }

  lemma LooseMyMindQuantity6Absent(text: string)
    requires text == "i loose my mind"
    ensures !IsSubstring(" " + "payed" + " ", text)
  {
    AbsentPieceNotSubstring(" ", "payed", " ", text, 0);
  }

  lemma LooseMyMindQuantity(text: string)
    requires text == "i loose my mind"
    ensures FirstMatch(QuantityRules, text) == None
  {
    QuantityRulesPatterns();
    LooseMyMindQuantity0Absent(text);
    LooseMyMindQuantity1Absent(text);
    LooseMyMindQuantity2Absent(text);
    LooseMyMindQuantity3Absent(text);
    LooseMyMindQuantity4Absent(text);
    LooseMyMindQuantity5Absent(text);
    LooseMyMindQuantity6Absent(text);
    assert !Fires(QuantityRules[0], text);
    assert !Fires(QuantityRules[1], text);
    assert !Fires(QuantityRules[2], text);
    assert !Fires(QuantityRules[3], text);
    assert !Fires(QuantityRules[4], text);
    assert !Fires(QuantityRules[5], text);
    assert !Fires(QuantityRules[6], text);
  }

  lemma LooseMyMindCut1_11(text: string)
    requires text == "i loose my mind"
    ensures text == "i" + " loose my " + "mind"
  {
  }

  lemma LooseMyMindLoose0Occurs(text: string)
    requires text == "i loose my mind"
    ensures IsSubstring(" " + "loose" + " my ", text)
  {
    LooseMyMindCut1_11(text);
    assert " " + "loose" + " my " == " loose my ";
    OccursInConcat("i", " loose my ", "mind");
  }

  lemma LooseMyMindLoose(text: string)
    requires text == "i loose my mind"
    ensures FirstMatch(LooseRules, text) == Some(0)
  {
    LooseRulesPatterns();
    LooseMyMindLoose0Occurs(text);
    LooseRulesEntry0();
    FirstMatchIs(LooseRules, text, 0);
  }

  lemma LooseMyMindScan(text: string)
    requires text == "i loose my mind"
    ensures FirstMatch(Catalog, text) == Some(15)
  {
    CatalogLayout();
    LooseMyMindModal(text);
    LooseMyMindQuantity(text);
    LooseMyMindLoose(text);
    FirstMatchAppend(ModalRules, QuantityRules, text);
    FirstMatchAppend(ModalRules + QuantityRules, LooseRules, text);
    FirstMatchAppend(ModalRules + QuantityRules + LooseRules, IdiomRules, text);
    FirstMatchAppend(ModalRules + QuantityRules + LooseRules + IdiomRules, WordRules, text);
  }

  lemma LooseMyMindHead(body: string)
    requires body == "I loose my mind"
    ensures body == ['I'] + " loose my mind"
  {
  }

  lemma LooseMyMindRest(rest: string)
    requires rest == " loose my mind"
    ensures '\n' !in rest && forall d :: d in rest ==> !IsUpper(d)
  {
  }

  lemma LooseMyMindLowered()
    ensures [LowerChar('I')] + " loose my mind" == "i loose my mind"
  {
    assert LowerChar('I') == 'i';
  }

  lemma LooseMyMindPrepared(body: string)
    requires body == "I loose my mind"
    ensures Prepare(body) == "i loose my mind"
  {
    LooseMyMindHead(body);
    LooseMyMindRest(" loose my mind");
    PrepareSentence(body, 'I', " loose my mind");
    LooseMyMindLowered();
  }

  lemma LooseMyMindFirst(text: string)
    requires text == "i loose my mind"
    ensures FirstOccurrence(" " + "loose" + " my ", text, 1)
  {
    LooseMyMindCut1_11(text);
    assert " " + "loose" + " my " == " loose my ";
    FirstInConcat("i", " loose my ", "mind", 0);
  }

  lemma LooseMyMindStart(text: string)
    requires text == "i loose my mind"
    ensures ContextStart(text, 1, 0)
  {
    assert text[..1] == "i";
    ContextStartAtFront(text, 1);
  }

  lemma LooseMyMindCut11_15(text: string)
    requires text == "i loose my mind"
    ensures text == "i loose my " + "mind"
  {
  }

  lemma LooseMyMindEnd(text: string)
    requires text == "i loose my mind"
    ensures ContextEnd(text, 11, 15)
  {
    LooseMyMindCut11_15(text);
    ContextEndAtEnd("i loose my ", "mind");
  }

  lemma LooseMyMindSpan(text: string)
    requires text == "i loose my mind"
    ensures text[0..15] == "i loose my mind"
  {
    assert text[..15] == "i loose my mind";
  }

  lemma LooseMyMindContext(text: string)
    requires text == "i loose my mind"
    ensures IsSubstring(MatchString(LooseRules[0]), text) && FindContext(LooseRules[0], text) == "i loose my mind"
  {
    LooseRulesPatterns();
    LooseMyMindFirst(text);
    LooseMyMindStart(text);
    LooseMyMindEnd(text);
    LooseMyMindSpan(text);
    FindContextIs(LooseRules[0], text, 1, 0, 15);
  }

  lemma LooseMyMindRule(text: string)
    requires text == "i loose my mind"
    ensures Catalog[15].correction == "lose" && Explain(Catalog[15]) == ExplanationPrefix + LooseExplanation
    ensures IsSubstring(MatchString(Catalog[15]), text) && FindContext(Catalog[15], text) == "i loose my mind"
  {
    CatalogLayout();
    LooseRulesEntry0();
    LooseMyMindContext(text);
  }

  /** "I could care less " is corrected to "couldn't care less". */
  lemma CouldCareLess(body: string)
    requires body == "I could care less "
    ensures Select(Catalog, body) == Some(Correction("couldn't care less", ExplanationPrefix + "If you could care less, you do care, which is the opposite of what you meant to say.", "i could care less "))
  {
    CouldCareLessPrepared(body);
    CouldCareLessScan(Prepare(body));
    SelectIs(Catalog, body, 22);
    CouldCareLessRule(Prepare(body));
  }

  lemma CouldCareLessModal0Absent(text: string)
    requires text == "i could care less "
    ensures !IsSubstring(" " + "shouldn't" + " of ", text)
  {
    AbsentPieceNotSubstring(" ", "shouldn't", " of ", text, 1);
  }

  lemma CouldCareLessModal1Absent(text: string)
    requires text == "i could care less "
    ensures !IsSubstring(" " + "couldn't" + " of ", text)
  {
    AbsentPieceNotSubstring(" ", "couldn't", " of ", text, 5);
  }

  lemma CouldCareLessModal2Absent(text: string)
    requires text == "i could care less "
    ensures !IsSubstring(" " + "wouldn't" + " of ", text)
  {
    AbsentPieceNotSubstring(" ", "wouldn't", " of ", text, 0);
  }

  lemma CouldCareLessModal3Absent(text: string)
    requires text == "i could care less "
    ensures !IsSubstring(" " + "should" + " of ", text)
  {
    AbsentPieceNotSubstring(" ", "should", " of ", text, 1);
  }

  lemma CouldCareLessModal4Absent(text: string)
    requires text == "i could care less "
    ensures !IsSubstring(" " + "would" + " of ", text)
  {
    AbsentPieceNotSubstring(" ", "would", " of ", text, 0);
  }

  lemma CouldCareLessModal5Absent(text: string)
    requires text == "i could care less "
    ensures !IsSubstring(" " + "could" + " of ", text)
  {
    AbsentCharNotSubstring(" " + "could" + " of ", text, 'f');
  }

  lemma CouldCareLessModal6Absent(text: string)
    requires text == "i could care less "
    ensures !IsSubstring(" " + "must" + " of ", text)
  {
    AbsentPieceNotSubstring(" ", "must", " of ", text, 0);
  }

  lemma CouldCareLessModal7Absent(text: string)
    requires text == "i could care less "
    ensures !IsSubstring(" " + "might" + " of ", text)
  {
    AbsentPieceNotSubstring(" ", "might", " of ", text, 0);
  }

  lemma CouldCareLessModal(text: string)
    requires text == "i could care less "
    ensures FirstMatch(ModalRules, text) == None
  {
    ModalRulesPatterns();
    CouldCareLessModal0Absent(text);
    CouldCareLessModal1Absent(text);
    CouldCareLessModal2Absent(text);
    CouldCareLessModal3Absent(text);
    CouldCareLessModal4Absent(text);
    CouldCareLessModal5Absent(text);
    CouldCareLessModal6Absent(text);
    CouldCareLessModal7Absent(text);
    assert !Fires(ModalRules[0], text);
    assert !Fires(ModalRules[1], text);
    assert !Fires(ModalRules[2], text);
    assert !Fires(ModalRules[3], text);
    assert !Fires(ModalRules[4], text);
    assert !Fires(ModalRules[5], text);
    assert !Fires(ModalRules[6], text);
    assert !Fires(ModalRules[7], text);
  }

  lemma CouldCareLessQuantity0Absent(text: string)
    requires text == "i could care less "
    ensures !IsSubstring(" way " + "to many" + " ", text)
  {
    AbsentPieceNotSubstring(" way ", "to many", " ", text, 0);
  }

  lemma CouldCareLessQuantity1Absent(text: string)
    requires text == "i could care less "
    ensures !IsSubstring(" far " + "to many" + " ", text)
  {
    AbsentPieceNotSubstring(" far ", "to many", " ", text, 0);
  }

  lemma CouldCareLessQuantity2Absent(text: string)
    requires text == "i could care less "
    ensures !IsSubstring(" " + "to few" + " ", text)
  {
    AbsentPieceNotSubstring(" ", "to few", " ", text, 0);
  }

  lemma CouldCareLessQuantity3Absent(text: string)
    requires text == "i could care less "
    ensures !IsSubstring(" way " + "to much" + " ", text)
  {
    AbsentPieceNotSubstring(" way ", "to much", " ", text, 0);
  }

  lemma CouldCareLessQuantity4Absent(text: string)
    requires text == "i could care less "
    ensures !IsSubstring(" " + "more then" + " ", text)
  {
    AbsentPieceNotSubstring(" ", "more then", " ", text, 0);
  }

  lemma CouldCareLessQuantity5Absent(text: string)
    requires text == "i could care less "
    ensures !IsSubstring(" " + "less then" + " ", text)
  {
    AbsentPieceNotSubstring(" ", "less then", " ", text, 5);
  }

  lemma CouldCareLessQuantity6Absent(text: string)
    requires text == "i could care less "
    ensures !IsSubstring(" " + "payed" + " ", text)
  {
    AbsentPieceNotSubstring(" ", "payed", " ", text, 0);
  }

  lemma CouldCareLessQuantity(text: string)
    requires text == "i could care less "
    ensures FirstMatch(QuantityRules, text) == None
  {
    QuantityRulesPatterns();
    CouldCareLessQuantity0Absent(text);
    CouldCareLessQuantity1Absent(text);
    CouldCareLessQuantity2Absent(text);
    CouldCareLessQuantity3Absent(text);
    CouldCareLessQuantity4Absent(text);
    CouldCareLessQuantity5Absent(text);
    CouldCareLessQuantity6Absent(text);
    assert !Fires(QuantityRules[0], text);
    assert !Fires(QuantityRules[1], text);
    assert !Fires(QuantityRules[2], text);
    assert !Fires(QuantityRules[3], text);
    assert !Fires(QuantityRules[4], text);
    assert !Fires(QuantityRules[5], text);
    assert !Fires(QuantityRules[6], text);
  }

  lemma CouldCareLessLoose0Absent(text: string)
    requires text == "i could care less "
    ensures !IsSubstring(" " + "loose" + " my ", text)
  {
    AbsentCharNotSubstring(" " + "loose" + " my ", text, 'm');
  }

  lemma CouldCareLessLoose1Absent(text: string)
    requires text == "i could care less "
    ensures !IsSubstring(" " + "loose" + " your ", text)
  {
    AbsentCharNotSubstring(" " + "loose" + " your ", text, 'y');
  }

  lemma CouldCareLessLoose2Absent(text: string)
    requires text == "i could care less "
    ensures !IsSubstring(" " + "loose" + " his ", text)
  {
    AbsentCharNotSubstring(" " + "loose" + " his ", text, 'h');
  }

  lemma CouldCareLessLoose3Absent(text: string)
    requires text == "i could care less "
    ensures !IsSubstring(" " + "loose" + " her ", text)
  {
    AbsentCharNotSubstring(" " + "loose" + " her ", text, 'h');
  }

  lemma CouldCareLessLoose4Absent(text: string)
    requires text == "i could care less "
    ensures !IsSubstring(" " + "loose" + " their ", text)
  {
    AbsentCharNotSubstring(" " + "loose" + " their ", text, 't');
  }

  lemma CouldCareLessChar3(text: string)
    requires text == "i could care less "
    ensures text == "i c" + ['o'] + "uld care less "
  {
  }

  lemma CouldCareLessLoose5Absent(text: string)
    requires text == "i could care less "
    ensures !IsSubstring(" " + "loose" + " our ", text)
  {
    CouldCareLessChar3(text);
    AnchorMismatch(" " + "loose" + " our ", "i c", 'o', "uld care less ", 2, 1);
  }

  lemma CouldCareLessLoose6Absent(text: string)
    requires text == "i could care less "
    ensures !IsSubstring(" " + "loose" + " its ", text)
  {
    AbsentCharNotSubstring(" " + "loose" + " its ", text, 't');
  }

  lemma CouldCareLessLoose(text: string)
    requires text == "i could care less "
    ensures FirstMatch(LooseRules, text) == None
  {
    LooseRulesPatterns();
    CouldCareLessLoose0Absent(text);
    CouldCareLessLoose1Absent(text);
    CouldCareLessLoose2Absent(text);
    CouldCareLessLoose3Absent(text);
    CouldCareLessLoose4Absent(text);
    CouldCareLessLoose5Absent(text);
    CouldCareLessLoose6Absent(text);
    assert !Fires(LooseRules[0], text);
    assert !Fires(LooseRules[1], text);
    assert !Fires(LooseRules[2], text);
    assert !Fires(LooseRules[3], text);
    assert !Fires(LooseRules[4], text);
    assert !Fires(LooseRules[5], text);
    assert !Fires(LooseRules[6], text);
  }

  lemma CouldCareLessCut1_18(text: string)
    requires text == "i could care less "
    ensures text == "i" + " could care less "
  {
  }

  lemma CouldCareLessIdiom0Occurs(text: string)
    requires text == "i could care less "
    ensures IsSubstring(" " + "could care less" + " ", text)
  {
    CouldCareLessCut1_18(text);
    assert " " + "could care less" + " " == " could care less ";
    OccursAtEnd("i", " could care less ");
  }

  lemma CouldCareLessIdiom0Lacks0(text: string)
    requires text == "i could care less "
    ensures !IsSubstring("couldn't care less*", text)
  {
    AbsentCharNotSubstring("couldn't care less*", text, 'n');
  }

  lemma CouldCareLessIdiom0Lacks1(text: string)
    requires text == "i could care less "
    ensures !IsSubstring("couldn't*", text)
  {
    AbsentCharNotSubstring("couldn't*", text, 'n');
  }

  lemma CouldCareLessIdiom0Lacks2(text: string)
    requires text == "i could care less "
    ensures !IsSubstring("did you mean", text)
  {
    AbsentCharNotSubstring("did you mean", text, 'y');
  }

  lemma CouldCareLessIdiom(text: string)
    requires text == "i could care less "
    ensures FirstMatch(IdiomRules, text) == Some(0)
  {
    IdiomRulesPatterns();
    CouldCareLessIdiom0Occurs(text);
    CouldCareLessIdiom0Lacks0(text);
    CouldCareLessIdiom0Lacks1(text);
    CouldCareLessIdiom0Lacks2(text);
    IdiomRulesEntry0();
    FirstMatchIs(IdiomRules, text, 0);
  }

  lemma CouldCareLessScan(text: string)
    requires text == "i could care less "
    ensures FirstMatch(Catalog, text) == Some(22)
  {
    CatalogLayout();
    CouldCareLessModal(text);
    CouldCareLessQuantity(text);
    CouldCareLessLoose(text);
    CouldCareLessIdiom(text);
    FirstMatchAppend(ModalRules, QuantityRules, text);
    FirstMatchAppend(ModalRules + QuantityRules, LooseRules, text);
    FirstMatchAppend(ModalRules + QuantityRules + LooseRules, IdiomRules, text);
    FirstMatchAppend(ModalRules + QuantityRules + LooseRules + IdiomRules, WordRules, text);
  }

  lemma CouldCareLessHead(body: string)
    requires body == "I could care less "
    ensures body == ['I'] + " could care less "
  {
  }

  lemma CouldCareLessRest(rest: string)
    requires rest == " could care less "
    ensures '\n' !in rest && forall d :: d in rest ==> !IsUpper(d)
  {
  }

  lemma CouldCareLessLowered()
    ensures [LowerChar('I')] + " could care less " == "i could care less "
  {
    assert LowerChar('I') == 'i';
  }

  lemma CouldCareLessPrepared(body: string)
    requires body == "I could care less "
    ensures Prepare(body) == "i could care less "
  {
    CouldCareLessHead(body);
    CouldCareLessRest(" could care less ");
    PrepareSentence(body, 'I', " could care less ");
    CouldCareLessLowered();
  }

  lemma CouldCareLessFirst(text: string)
    requires text == "i could care less "
    ensures FirstOccurrence(" " + "could care less" + " ", text, 1)
  {
    CouldCareLessCut1_18(text);
    assert " " + "could care less" + " " == " could care less ";
    FirstAtEnd("i", " could care less ", 0);
  }

  lemma CouldCareLessStart(text: string)
    requires text == "i could care less "
    ensures ContextStart(text, 1, 0)
  {
    assert text[..1] == "i";
    ContextStartAtFront(text, 1);
  }

  lemma CouldCareLessEnd(text: string)
    requires text == "i could care less "
    ensures ContextEnd(text, 18, 18)
  {
  }

  lemma CouldCareLessSpan(text: string)
    requires text == "i could care less "
    ensures text[0..18] == "i could care less "
  {
    assert text[..18] == "i could care less ";
  }

  lemma CouldCareLessContext(text: string)
    requires text == "i could care less "
    ensures IsSubstring(MatchString(IdiomRules[0]), text) && FindContext(IdiomRules[0], text) == "i could care less "
  {
    IdiomRulesPatterns();
    CouldCareLessFirst(text);
    CouldCareLessStart(text);
    CouldCareLessEnd(text);
    CouldCareLessSpan(text);
    FindContextIs(IdiomRules[0], text, 1, 0, 18);
  }

  lemma CouldCareLessRule(text: string)
    requires text == "i could care less "
    ensures Catalog[22].correction == "couldn't care less" && Explain(Catalog[22]) == ExplanationPrefix + "If you could care less, you do care, which is the opposite of what you meant to say."
    ensures IsSubstring(MatchString(Catalog[22]), text) && FindContext(Catalog[22], text) == "i could care less "
  {
    CatalogLayout();
    IdiomRulesEntry0();
    CouldCareLessContext(text);
  }

  /** "I should of course do that": "of course" suppresses the modal rules and nothing else fires. */
  lemma ShouldOfCourse(body: string)
    requires body == "I should of course do that"
    ensures Select(Catalog, body) == None
  {
    ShouldOfCoursePrepared(body);
    ShouldOfCourseScan(Prepare(body));
  }

  lemma ShouldOfCourseModal0Absent(text: string)
    requires text == "i should of course do that"
    ensures !IsSubstring(" " + "shouldn't" + " of ", text)
  {
    AbsentPieceNotSubstring(" ", "shouldn't", " of ", text, 6);
  }

  lemma ShouldOfCourseModal1Absent(text: string)
    requires text == "i should of course do that"
    ensures !IsSubstring(" " + "couldn't" + " of ", text)
  {
    AbsentPieceNotSubstring(" ", "couldn't", " of ", text, 5);
  }

  lemma ShouldOfCourseModal2Absent(text: string)
    requires text == "i should of course do that"
    ensures !IsSubstring(" " + "wouldn't" + " of ", text)
  {
    AbsentPieceNotSubstring(" ", "wouldn't", " of ", text, 0);
  }

  lemma ShouldOfCourseCut9_18(text: string)
    requires text == "i should of course do that"
    ensures text == "i should " + "of course" + " do that"
  {
  }

  lemma ShouldOfCourseModal3Excepted(text: string)
    requires text == "i should of course do that"
    ensures IsSubstring("of course", text)
  {
    ShouldOfCourseCut9_18(text);
    OccursInConcat("i should ", "of course", " do that");
  }

  lemma ShouldOfCourseModal4Absent(text: string)
    requires text == "i should of course do that"
    ensures !IsSubstring(" " + "would" + " of ", text)
  {
    AbsentPieceNotSubstring(" ", "would", " of ", text, 0);
  }

  lemma ShouldOfCourseChar12(text: string)
    requires text == "i should of course do that"
    ensures text == "i should of " + ['c'] + "ourse do that"
  {
  }

  lemma ShouldOfCourseModal5Absent(text: string)
    requires text == "i should of course do that"
    ensures !IsSubstring(" " + "could" + " of ", text)
  {
    ShouldOfCourseChar12(text);
    AnchorMismatch(" " + "could" + " of ", "i should of ", 'c', "ourse do that", 1, 4);
  }

  lemma ShouldOfCourseModal6Absent(text: string)
    requires text == "i should of course do that"
    ensures !IsSubstring(" " + "must" + " of ", text)
  {
    AbsentPieceNotSubstring(" ", "must", " of ", text, 0);
  }

  lemma ShouldOfCourseModal7Absent(text: string)
    requires text == "i should of course do that"
    ensures !IsSubstring(" " + "might" + " of ", text)
  {
    AbsentPieceNotSubstring(" ", "might", " of ", text, 0);
  }

  lemma ShouldOfCourseModal(text: string)
    requires text == "i should of course do that"
    ensures FirstMatch(ModalRules, text) == None
  {
    ModalRulesPatterns();
    ShouldOfCourseModal0Absent(text);
    ShouldOfCourseModal1Absent(text);
    ShouldOfCourseModal2Absent(text);
    ShouldOfCourseModal3Excepted(text);
    ShouldOfCourseModal4Absent(text);
    ShouldOfCourseModal5Absent(text);
    ShouldOfCourseModal6Absent(text);
    ShouldOfCourseModal7Absent(text);
    assert !Fires(ModalRules[0], text);
    assert !Fires(ModalRules[1], text);
    assert !Fires(ModalRules[2], text);
    ModalRulesEntry3();
    ExceptionDominates(ModalRules[3], text, 0);
    assert !Fires(ModalRules[4], text);
    assert !Fires(ModalRules[5], text);
    assert !Fires(ModalRules[6], text);
    assert !Fires(ModalRules[7], text);
  }

  lemma ShouldOfCourseQuantity0Absent(text: string)
    requires text == "i should of course do that"
    ensures !IsSubstring(" way " + "to many" + " ", text)
  {
    AbsentPieceNotSubstring(" way ", "to many", " ", text, 3);
  }

  lemma ShouldOfCourseQuantity1Absent(text: string)
    requires text == "i should of course do that"
    ensures !IsSubstring(" far " + "to many" + " ", text)
  {
    AbsentPieceNotSubstring(" far ", "to many", " ", text, 3);
  }

  lemma ShouldOfCourseQuantity2Absent(text: string)
    requires text == "i should of course do that"
    ensures !IsSubstring(" " + "to few" + " ", text)
  {
    AbsentPieceNotSubstring(" ", "to few", " ", text, 5);
  }

  lemma ShouldOfCourseQuantity3Absent(text: string)
    requires text == "i should of course do that"
    ensures !IsSubstring(" way " + "to much" + " ", text)
  {
    AbsentPieceNotSubstring(" way ", "to much", " ", text, 3);
  }

  lemma ShouldOfCourseQuantity4Absent(text: string)
    requires text == "i should of course do that"
    ensures !IsSubstring(" " + "more then" + " ", text)
  {
    AbsentPieceNotSubstring(" ", "more then", " ", text, 0);
  }

  lemma ShouldOfCourseQuantity5Absent(text: string)
    requires text == "i should of course do that"
    ensures !IsSubstring(" " + "less then" + " ", text)
  {
    AbsentPieceNotSubstring(" ", "less then", " ", text, 8);
  }

  lemma ShouldOfCourseQuantity6Absent(text: string)
    requires text == "i should of course do that"
    ensures !IsSubstring(" " + "payed" + " ", text)
  {
    AbsentPieceNotSubstring(" ", "payed", " ", text, 0);
  }

  lemma ShouldOfCourseQuantity(text: string)
    requires text == "i should of course do that"
    ensures FirstMatch(QuantityRules, text) == None
  {
    QuantityRulesPatterns();
    ShouldOfCourseQuantity0Absent(text);
    ShouldOfCourseQuantity1Absent(text);
    ShouldOfCourseQuantity2Absent(text);
    ShouldOfCourseQuantity3Absent(text);
    ShouldOfCourseQuantity4Absent(text);
    ShouldOfCourseQuantity5Absent(text);
    ShouldOfCourseQuantity6Absent(text);
    assert !Fires(QuantityRules[0], text);
    assert !Fires(QuantityRules[1], text);
    assert !Fires(QuantityRules[2], text);
    assert !Fires(QuantityRules[3], text);
    assert !Fires(QuantityRules[4], text);
    assert !Fires(QuantityRules[5], text);
    assert !Fires(QuantityRules[6], text);
  }

  lemma ShouldOfCourseLoose0Absent(text: string)
    requires text == "i should of course do that"
    ensures !IsSubstring(" " + "loose" + " my ", text)
  {
    AbsentCharNotSubstring(" " + "loose" + " my ", text, 'm');
  }

  lemma ShouldOfCourseLoose1Absent(text: string)
    requires text == "i should of course do that"
    ensures !IsSubstring(" " + "loose" + " your ", text)
  {
    AbsentCharNotSubstring(" " + "loose" + " your ", text, 'y');
  }

  lemma ShouldOfCourseChar6(text: string)
    requires text == "i should of course do that"
    ensures text == "i shou" + ['l'] + "d of course do that"
  {
  }

  lemma ShouldOfCourseLoose2Absent(text: string)
    requires text == "i should of course do that"
    ensures !IsSubstring(" " + "loose" + " his ", text)
  {
    ShouldOfCourseChar6(text);
    AnchorMismatch(" " + "loose" + " his ", "i shou", 'l', "d of course do that", 1, 0);
  }

  lemma ShouldOfCourseLoose3Absent(text: string)
    requires text == "i should of course do that"
    ensures !IsSubstring(" " + "loose" + " her ", text)
  {
    ShouldOfCourseChar6(text);
    AnchorMismatch(" " + "loose" + " her ", "i shou", 'l', "d of course do that", 1, 0);
  }

  lemma ShouldOfCourseLoose4Absent(text: string)
    requires text == "i should of course do that"
    ensures !IsSubstring(" " + "loose" + " their ", text)
  {
    ShouldOfCourseChar6(text);
    AnchorMismatch(" " + "loose" + " their ", "i shou", 'l', "d of course do that", 1, 0);
  }

  lemma ShouldOfCourseLoose5Absent(text: string)
    requires text == "i should of course do that"
    ensures !IsSubstring(" " + "loose" + " our ", text)
  {
    ShouldOfCourseChar6(text);
    AnchorMismatch(" " + "loose" + " our ", "i shou", 'l', "d of course do that", 1, 0);
  }

  lemma ShouldOfCourseLoose6Absent(text: string)
    requires text == "i should of course do that"
    ensures !IsSubstring(" " + "loose" + " its ", text)
  {
    ShouldOfCourseChar6(text);
    AnchorMismatch(" " + "loose" + " its ", "i shou", 'l', "d of course do that", 1, 0);
  }

  lemma ShouldOfCourseLoose(text: string)
    requires text == "i should of course do that"
    ensures FirstMatch(LooseRules, text) == None
  {
    LooseRulesPatterns();
    ShouldOfCourseLoose0Absent(text);
    ShouldOfCourseLoose1Absent(text);
    ShouldOfCourseLoose2Absent(text);
    ShouldOfCourseLoose3Absent(text);
    ShouldOfCourseLoose4Absent(text);
    ShouldOfCourseLoose5Absent(text);
    ShouldOfCourseLoose6Absent(text);
    assert !Fires(LooseRules[0], text);
    assert !Fires(LooseRules[1], text);
    assert !Fires(LooseRules[2], text);
    assert !Fires(LooseRules[3], text);
    assert !Fires(LooseRules[4], text);
    assert !Fires(LooseRules[5], text);
    assert !Fires(LooseRules[6], text);
  }

  lemma ShouldOfCourseIdiom0Absent(text: string)
    requires text == "i should of course do that"
    ensures !IsSubstring(" " + "could care less" + " ", text)
  {
    ShouldOfCourseChar12(text);
    AnchorOutOfRange(" " + "could care less" + " ", "i should of ", 'c', "ourse do that", 1);
  }

  lemma ShouldOfCourseIdiom1Absent(text: string)
    requires text == "i should of course do that"
    ensures !IsSubstring(" " + "loosing" + " ", text)
  {
    AbsentPieceNotSubstring(" ", "loosing", " ", text, 5);
  }

  lemma ShouldOfCourseIdiom2Absent(text: string)
    requires text == "i should of course do that"
    ensures !IsSubstring(" " + "looses" + " ", text)
  {
    ShouldOfCourseChar6(text);
    AnchorMismatch(" " + "looses" + " ", "i shou", 'l', "d of course do that", 1, 0);
  }

  lemma ShouldOfCourseIdiom3Absent(text: string)
    requires text == "i should of course do that"
    ensures !IsSubstring(" " + "irregardless" + " ", text)
  {
    AbsentPieceNotSubstring(" ", "irregardless", " ", text, 4);
  }

  lemma ShouldOfCourseIdiom4Absent(text: string)
    requires text == "i should of course do that"
    ensures !IsSubstring(" be " + "weary of" + " ", text)
  {
    AbsentPieceNotSubstring(" be ", "weary of", " ", text, 0);
  }

  lemma ShouldOfCourseIdiom5Absent(text: string)
    requires text == "i should of course do that"
    ensures !IsSubstring(" " + "can't breath" + " ", text)
  {
    AbsentPieceNotSubstring(" ", "can't breath", " ", text, 2);
  }

  lemma ShouldOfCourseIdiom6Absent(text: string)
    requires text == "i should of course do that"
    ensures !IsSubstring(" " + "intensive purposes" + " ", text)
  {
    AbsentPieceNotSubstring(" ", "intensive purposes", " ", text, 1);
  }

  lemma ShouldOfCourseIdiom7Absent(text: string)
    requires text == "i should of course do that"
    ensures !IsSubstring(" " + "sneak peak" + " ", text)
  {
    AbsentPieceNotSubstring(" ", "sneak peak", " ", text, 1);
  }

  lemma ShouldOfCourseIdiom8Absent(text: string)
    requires text == "i should of course do that"
    ensures !IsSubstring(" " + "sneak peaks" + " ", text)
  {
    AbsentPieceNotSubstring(" ", "sneak peaks", " ", text, 1);
  }

  lemma ShouldOfCourseIdiom9Absent(text: string)
    requires text == "i should of course do that"
    ensures !IsSubstring(" " + "unphased" + " ", text)
  {
    AbsentPieceNotSubstring(" ", "unphased", " ", text, 1);
  }

  lemma ShouldOfCourseIdiom(text: string)
    requires text == "i should of course do that"
    ensures FirstMatch(IdiomRules, text) == None
  {
    IdiomRulesPatterns();
    ShouldOfCourseIdiom0Absent(text);
    ShouldOfCourseIdiom1Absent(text);
    ShouldOfCourseIdiom2Absent(text);
    ShouldOfCourseIdiom3Absent(text);
    ShouldOfCourseIdiom4Absent(text);
    ShouldOfCourseIdiom5Absent(text);
    ShouldOfCourseIdiom6Absent(text);
    ShouldOfCourseIdiom7Absent(text);
    ShouldOfCourseIdiom8Absent(text);
    ShouldOfCourseIdiom9Absent(text);
    assert !Fires(IdiomRules[0], text);
    assert !Fires(IdiomRules[1], text);
    assert !Fires(IdiomRules[2], text);
    assert !Fires(IdiomRules[3], text);
    assert !Fires(IdiomRules[4], text);
    assert !Fires(IdiomRules[5], text);
    assert !Fires(IdiomRules[6], text);
    assert !Fires(IdiomRules[7], text);
    assert !Fires(IdiomRules[8], text);
    assert !Fires(IdiomRules[9], text);
  }

  lemma ShouldOfCourseWord0Absent(text: string)
    requires text == "i should of course do that"
    ensures !IsSubstring(" " + "epitamy" + " ", text)
  {
    AbsentPieceNotSubstring(" ", "epitamy", " ", text, 1);
  }

  lemma ShouldOfCourseWord1Absent(text: string)
    requires text == "i should of course do that"
    ensures !IsSubstring(" " + "no affect" + " ", text)
  {
    AbsentPieceNotSubstring(" ", "no affect", " ", text, 0);
  }

  lemma ShouldOfCourseWord2Absent(text: string)
    requires text == "i should of course do that"
    ensures !IsSubstring(" " + "little affect" + " ", text)
  {
    ShouldOfCourseChar6(text);
    AnchorMismatch(" " + "little affect" + " ", "i shou", 'l', "d of course do that", 1, 0);
  }

  lemma ShouldOfCourseWord3Absent(text: string)
    requires text == "i should of course do that"
    ensures !IsSubstring(" " + "peaked my interest" + " ", text)
  {
    AbsentPieceNotSubstring(" ", "peaked my interest", " ", text, 0);
  }

  lemma ShouldOfCourseWord4Absent(text: string)
    requires text == "i should of course do that"
    ensures !IsSubstring(" " + "peaked my curiosity" + " ", text)
  {
    AbsentPieceNotSubstring(" ", "peaked my curiosity", " ", text, 0);
  }

  lemma ShouldOfCourseWord5Absent(text: string)
    requires text == "i should of course do that"
    ensures !IsSubstring(" " + "apart of" + " ", text)
  {
    AbsentPieceNotSubstring(" ", "apart of", " ", text, 1);
  }

  lemma ShouldOfCourseWord6Absent(text: string)
    requires text == "i should of course do that"
    ensures !IsSubstring(" " + "queue" + " the ", text)
  {
    AbsentPieceNotSubstring(" ", "queue", " the ", text, 0);
  }

  lemma ShouldOfCourseWord7Absent(text: string)
    requires text == "i should of course do that"
    ensures !IsSubstring(" " + "humanely possible" + " ", text)
  {
    AbsentPieceNotSubstring(" ", "humanely possible", " ", text, 2);
  }

  lemma ShouldOfCourseWord8Absent(text: string)
    requires text == "i should of course do that"
    ensures !IsSubstring(" " + "intimated by" + " ", text)
  {
    AbsentPieceNotSubstring(" ", "intimated by", " ", text, 1);
  }

  lemma ShouldOfCourseWord9Absent(text: string)
    requires text == "i should of course do that"
    ensures !IsSubstring(" " + "per say" + " ", text)
  {
    AbsentPieceNotSubstring(" ", "per say", " ", text, 0);
  }

  lemma ShouldOfCourseWord10Absent(text: string)
    requires text == "i should of course do that"
    ensures !IsSubstring(" " + "chocking" + " ", text)
  {
    AbsentPieceNotSubstring(" ", "chocking", " ", text, 4);
  }

  lemma ShouldOfCourseWord(text: string)
    requires text == "i should of course do that"
    ensures FirstMatch(WordRules, text) == None
  {
    WordRulesPatterns();
    ShouldOfCourseWord0Absent(text);
    ShouldOfCourseWord1Absent(text);
    ShouldOfCourseWord2Absent(text);
    ShouldOfCourseWord3Absent(text);
    ShouldOfCourseWord4Absent(text);
    ShouldOfCourseWord5Absent(text);
    ShouldOfCourseWord6Absent(text);
    ShouldOfCourseWord7Absent(text);
    ShouldOfCourseWord8Absent(text);
    ShouldOfCourseWord9Absent(text);
    ShouldOfCourseWord10Absent(text);
    assert !Fires(WordRules[0], text);
    assert !Fires(WordRules[1], text);
    assert !Fires(WordRules[2], text);
    assert !Fires(WordRules[3], text);
    assert !Fires(WordRules[4], text);
    assert !Fires(WordRules[5], text);
    assert !Fires(WordRules[6], text);
    assert !Fires(WordRules[7], text);
    assert !Fires(WordRules[8], text);
    assert !Fires(WordRules[9], text);
    assert !Fires(WordRules[10], text);
  }

  lemma ShouldOfCourseScan(text: string)
    requires text == "i should of course do that"
    ensures FirstMatch(Catalog, text) == None
  {
    CatalogLayout();
    ShouldOfCourseModal(text);
    ShouldOfCourseQuantity(text);
    ShouldOfCourseLoose(text);
    ShouldOfCourseIdiom(text);
    ShouldOfCourseWord(text);
    FirstMatchAppend(ModalRules, QuantityRules, text);
    FirstMatchAppend(ModalRules + QuantityRules, LooseRules, text);
    FirstMatchAppend(ModalRules + QuantityRules + LooseRules, IdiomRules, text);
    FirstMatchAppend(ModalRules + QuantityRules + LooseRules + IdiomRules, WordRules, text);
  }

  lemma ShouldOfCourseHead(body: string)
    requires body == "I should of course do that"
    ensures body == ['I'] + " should of course do that"
  {
  }

  lemma ShouldOfCourseRest(rest: string)
    requires rest == " should of course do that"
    ensures '\n' !in rest && forall d :: d in rest ==> !IsUpper(d)
  {
  }

  lemma ShouldOfCourseLowered()
    ensures [LowerChar('I')] + " should of course do that" == "i should of course do that"
  {
    assert LowerChar('I') == 'i';
  }

  lemma ShouldOfCoursePrepared(body: string)
    requires body == "I should of course do that"
    ensures Prepare(body) == "i should of course do that"
  {
    ShouldOfCourseHead(body);
    ShouldOfCourseRest(" should of course do that");
    PrepareSentence(body, 'I', " should of course do that");
    ShouldOfCourseLowered();
  }

  /** "I should often": no rule fires, since no match string occurs. */
  lemma ShouldOften(body: string)
    requires body == "I should often"
    ensures Select(Catalog, body) == None
  {
    ShouldOftenPrepared(body);
    ShouldOftenScan(Prepare(body));
  }

  lemma ShouldOftenModal0Absent(text: string)
    requires text == "i should often"
    ensures !IsSubstring(" " + "shouldn't" + " of ", text)
  {
    AbsentPieceNotSubstring(" ", "shouldn't", " of ", text, 7);
  }

  lemma ShouldOftenModal1Absent(text: string)
    requires text == "i should often"
    ensures !IsSubstring(" " + "couldn't" + " of ", text)
  {
    AbsentPieceNotSubstring(" ", "couldn't", " of ", text, 0);
  }

  lemma ShouldOftenModal2Absent(text: string)
    requires text == "i should often"
    ensures !IsSubstring(" " + "wouldn't" + " of ", text)
  {
    AbsentPieceNotSubstring(" ", "wouldn't", " of ", text, 0);
  }

  lemma ShouldOftenChar2(text: string)
    requires text == "i should often"
    ensures text == "i " + ['s'] + "hould often"
  {
  }

  lemma ShouldOftenModal3Absent(text: string)
    requires text == "i should often"
    ensures !IsSubstring(" " + "should" + " of ", text)
  {
    ShouldOftenChar2(text);
    AnchorMismatch(" " + "should" + " of ", "i ", 's', "hould often", 1, 10);
  }

  lemma ShouldOftenModal4Absent(text: string)
    requires text == "i should often"
    ensures !IsSubstring(" " + "would" + " of ", text)
  {
    AbsentPieceNotSubstring(" ", "would", " of ", text, 0);
  }

  lemma ShouldOftenModal5Absent(text: string)
    requires text == "i should often"
    ensures !IsSubstring(" " + "could" + " of ", text)
  {
    AbsentPieceNotSubstring(" ", "could", " of ", text, 0);
  }

  lemma ShouldOftenModal6Absent(text: string)
    requires text == "i should often"
    ensures !IsSubstring(" " + "must" + " of ", text)
  {
    AbsentPieceNotSubstring(" ", "must", " of ", text, 0);
  }

  lemma ShouldOftenModal7Absent(text: string)
    requires text == "i should often"
    ensures !IsSubstring(" " + "might" + " of ", text)
  {
    AbsentPieceNotSubstring(" ", "might", " of ", text, 0);
  }

  lemma ShouldOftenModal(text: string)
    requires text == "i should often"
    ensures FirstMatch(ModalRules, text) == None
  {
    ModalRulesPatterns();
    ShouldOftenModal0Absent(text);
    ShouldOftenModal1Absent(text);
    ShouldOftenModal2Absent(text);
    ShouldOftenModal3Absent(text);
    ShouldOftenModal4Absent(text);
    ShouldOftenModal5Absent(text);
    ShouldOftenModal6Absent(text);
    ShouldOftenModal7Absent(text);
    assert !Fires(ModalRules[0], text);
    assert !Fires(ModalRules[1], text);
    assert !Fires(ModalRules[2], text);
    assert !Fires(ModalRules[3], text);
    assert !Fires(ModalRules[4], text);
    assert !Fires(ModalRules[5], text);
    assert !Fires(ModalRules[6], text);
    assert !Fires(ModalRules[7], text);
  }

  lemma ShouldOftenQuantity0Absent(text: string)
    requires text == "i should often"
    ensures !IsSubstring(" way " + "to many" + " ", text)
  {
    AbsentPieceNotSubstring(" way ", "to many", " ", text, 3);
  }

  lemma ShouldOftenQuantity1Absent(text: string)
    requires text == "i should often"
    ensures !IsSubstring(" far " + "to many" + " ", text)
  {
    AbsentPieceNotSubstring(" far ", "to many", " ", text, 3);
  }

  lemma ShouldOftenQuantity2Absent(text: string)
    requires text == "i should often"
    ensures !IsSubstring(" " + "to few" + " ", text)
  {
    AbsentPieceNotSubstring(" ", "to few", " ", text, 5);
  }

  lemma ShouldOftenQuantity3Absent(text: string)
    requires text == "i should often"
    ensures !IsSubstring(" way " + "to much" + " ", text)
  {
    AbsentPieceNotSubstring(" way ", "to much", " ", text, 3);
  }

  lemma ShouldOftenQuantity4Absent(text: string)
    requires text == "i should often"
    ensures !IsSubstring(" " + "more then" + " ", text)
  {
    AbsentPieceNotSubstring(" ", "more then", " ", text, 0);
  }

  lemma ShouldOftenChar6(text: string)
    requires text == "i should often"
    ensures text == "i shou" + ['l'] + "d often"
  {
  }

  lemma ShouldOftenQuantity5Absent(text: string)
    requires text == "i should often"
    ensures !IsSubstring(" " + "less then" + " ", text)
  {
    ShouldOftenChar6(text);
    AnchorOutOfRange(" " + "less then" + " ", "i shou", 'l', "d often", 1);
  }

  lemma ShouldOftenQuantity6Absent(text: string)
    requires text == "i should often"
    ensures !IsSubstring(" " + "payed" + " ", text)
  {
    AbsentPieceNotSubstring(" ", "payed", " ", text, 0);
  }

  lemma ShouldOftenQuantity(text: string)
    requires text == "i should often"
    ensures FirstMatch(QuantityRules, text) == None
  {
    QuantityRulesPatterns();
    ShouldOftenQuantity0Absent(text);
    ShouldOftenQuantity1Absent(text);
    ShouldOftenQuantity2Absent(text);
    ShouldOftenQuantity3Absent(text);
    ShouldOftenQuantity4Absent(text);
    ShouldOftenQuantity5Absent(text);
    ShouldOftenQuantity6Absent(text);
    assert !Fires(QuantityRules[0], text);
    assert !Fires(QuantityRules[1], text);
    assert !Fires(QuantityRules[2], text);
    assert !Fires(QuantityRules[3], text);
    assert !Fires(QuantityRules[4], text);
    assert !Fires(QuantityRules[5], text);
    assert !Fires(QuantityRules[6], text);
  }

  lemma ShouldOftenLoose0Absent(text: string)
    requires text == "i should often"
    ensures !IsSubstring(" " + "loose" + " my ", text)
  {
    AbsentCharNotSubstring(" " + "loose" + " my ", text, 'm');
  }

  lemma ShouldOftenLoose1Absent(text: string)
    requires text == "i should often"
    ensures !IsSubstring(" " + "loose" + " your ", text)
  {
    AbsentCharNotSubstring(" " + "loose" + " your ", text, 'y');
  }

  lemma ShouldOftenLoose2Absent(text: string)
    requires text == "i should often"
    ensures !IsSubstring(" " + "loose" + " his ", text)
  {
    ShouldOftenChar6(text);
    AnchorOutOfRange(" " + "loose" + " his ", "i shou", 'l', "d often", 1);
  }

  lemma ShouldOftenLoose3Absent(text: string)
    requires text == "i should often"
    ensures !IsSubstring(" " + "loose" + " her ", text)
  {
    AbsentCharNotSubstring(" " + "loose" + " her ", text, 'r');
  }

  lemma ShouldOftenLoose4Absent(text: string)
    requires text == "i should often"
    ensures !IsSubstring(" " + "loose" + " their ", text)
  {
    AbsentCharNotSubstring(" " + "loose" + " their ", text, 'r');
  }

  lemma ShouldOftenLoose5Absent(text: string)
    requires text == "i should often"
    ensures !IsSubstring(" " + "loose" + " our ", text)
  {
    AbsentCharNotSubstring(" " + "loose" + " our ", text, 'r');
  }

  lemma ShouldOftenLoose6Absent(text: string)
    requires text == "i should often"
    ensures !IsSubstring(" " + "loose" + " its ", text)
  {
    ShouldOftenChar6(text);
    AnchorOutOfRange(" " + "loose" + " its ", "i shou", 'l', "d often", 1);
  }

  lemma ShouldOftenLoose(text: string)
    requires text == "i should often"
    ensures FirstMatch(LooseRules, text) == None
  {
    LooseRulesPatterns();
    ShouldOftenLoose0Absent(text);
    ShouldOftenLoose1Absent(text);
    ShouldOftenLoose2Absent(text);
    ShouldOftenLoose3Absent(text);
    ShouldOftenLoose4Absent(text);
    ShouldOftenLoose5Absent(text);
    ShouldOftenLoose6Absent(text);
    assert !Fires(LooseRules[0], text);
    assert !Fires(LooseRules[1], text);
    assert !Fires(LooseRules[2], text);
    assert !Fires(LooseRules[3], text);
    assert !Fires(LooseRules[4], text);
    assert !Fires(LooseRules[5], text);
    assert !Fires(LooseRules[6], text);
  }

  lemma ShouldOftenIdiom0Absent(text: string)
    requires text == "i should often"
    ensures !IsSubstring(" " + "could care less" + " ", text)
  {
    AbsentPieceNotSubstring(" ", "could care less", " ", text, 0);
  }

  lemma ShouldOftenIdiom1Absent(text: string)
    requires text == "i should often"
    ensures !IsSubstring(" " + "loosing" + " ", text)
  {
    AbsentPieceNotSubstring(" ", "loosing", " ", text, 6);
  }

  lemma ShouldOftenIdiom2Absent(text: string)
    requires text == "i should often"
    ensures !IsSubstring(" " + "looses" + " ", text)
  {
    ShouldOftenChar6(text);
    AnchorMismatch(" " + "looses" + " ", "i shou", 'l', "d often", 1, 0);
  }

  lemma ShouldOftenIdiom3Absent(text: string)
    requires text == "i should often"
    ensures !IsSubstring(" " + "irregardless" + " ", text)
  {
    AbsentPieceNotSubstring(" ", "irregardless", " ", text, 1);
  }

  lemma ShouldOftenIdiom4Absent(text: string)
    requires text == "i should often"
    ensures !IsSubstring(" be " + "weary of" + " ", text)
  {
    AbsentPieceNotSubstring(" be ", "weary of", " ", text, 0);
  }

  lemma ShouldOftenIdiom5Absent(text: string)
    requires text == "i should often"
    ensures !IsSubstring(" " + "can't breath" + " ", text)
  {
    AbsentPieceNotSubstring(" ", "can't breath", " ", text, 0);
  }

  lemma ShouldOftenIdiom6Absent(text: string)
    requires text == "i should often"
    ensures !IsSubstring(" " + "intensive purposes" + " ", text)
  {
    AbsentPieceNotSubstring(" ", "intensive purposes", " ", text, 7);
  }

  lemma ShouldOftenIdiom7Absent(text: string)
    requires text == "i should often"
    ensures !IsSubstring(" " + "sneak peak" + " ", text)
  {
    AbsentPieceNotSubstring(" ", "sneak peak", " ", text, 3);
  }

  lemma ShouldOftenIdiom8Absent(text: string)
    requires text == "i should often"
    ensures !IsSubstring(" " + "sneak peaks" + " ", text)
  {
    AbsentPieceNotSubstring(" ", "sneak peaks", " ", text, 3);
  }

  lemma ShouldOftenIdiom9Absent(text: string)
    requires text == "i should often"
    ensures !IsSubstring(" " + "unphased" + " ", text)
  {
    AbsentPieceNotSubstring(" ", "unphased", " ", text, 2);
  }

  lemma ShouldOftenIdiom(text: string)
    requires text == "i should often"
    ensures FirstMatch(IdiomRules, text) == None
  {
    IdiomRulesPatterns();
    ShouldOftenIdiom0Absent(text);
    ShouldOftenIdiom1Absent(text);
    ShouldOftenIdiom2Absent(text);
    ShouldOftenIdiom3Absent(text);
    ShouldOftenIdiom4Absent(text);
    ShouldOftenIdiom5Absent(text);
    ShouldOftenIdiom6Absent(text);
    ShouldOftenIdiom7Absent(text);
    ShouldOftenIdiom8Absent(text);
    ShouldOftenIdiom9Absent(text);
    assert !Fires(IdiomRules[0], text);
    assert !Fires(IdiomRules[1], text);
    assert !Fires(IdiomRules[2], text);
    assert !Fires(IdiomRules[3], text);
    assert !Fires(IdiomRules[4], text);
    assert !Fires(IdiomRules[5], text);
    assert !Fires(IdiomRules[6], text);
    assert !Fires(IdiomRules[7], text);
    assert !Fires(IdiomRules[8], text);
    assert !Fires(IdiomRules[9], text);
  }

  lemma ShouldOftenWord0Absent(text: string)
    requires text == "i should often"
    ensures !IsSubstring(" " + "epitamy" + " ", text)
  {
    AbsentPieceNotSubstring(" ", "epitamy", " ", text, 1);
  }

  lemma ShouldOftenWord1Absent(text: string)
    requires text == "i should often"
    ensures !IsSubstring(" " + "no affect" + " ", text)
  {
    AbsentPieceNotSubstring(" ", "no affect", " ", text, 3);
  }

  lemma ShouldOftenWord2Absent(text: string)
    requires text == "i should often"
    ensures !IsSubstring(" " + "little affect" + " ", text)
  {
    AbsentPieceNotSubstring(" ", "little affect", " ", text, 7);
  }

  lemma ShouldOftenWord3Absent(text: string)
    requires text == "i should often"
    ensures !IsSubstring(" " + "peaked my interest" + " ", text)
  {
    AbsentPieceNotSubstring(" ", "peaked my interest", " ", text, 0);
  }

  lemma ShouldOftenWord4Absent(text: string)
    requires text == "i should often"
    ensures !IsSubstring(" " + "peaked my curiosity" + " ", text)
  {
    AbsentPieceNotSubstring(" ", "peaked my curiosity", " ", text, 0);
  }

  lemma ShouldOftenWord5Absent(text: string)
    requires text == "i should often"
    ensures !IsSubstring(" " + "apart of" + " ", text)
  {
    AbsentPieceNotSubstring(" ", "apart of", " ", text, 0);
  }

  lemma ShouldOftenWord6Absent(text: string)
    requires text == "i should often"
    ensures !IsSubstring(" " + "queue" + " the ", text)
  {
    AbsentPieceNotSubstring(" ", "queue", " the ", text, 0);
  }

  lemma ShouldOftenWord7Absent(text: string)
    requires text == "i should often"
    ensures !IsSubstring(" " + "humanely possible" + " ", text)
  {
    AbsentPieceNotSubstring(" ", "humanely possible", " ", text, 2);
  }

  lemma ShouldOftenWord8Absent(text: string)
    requires text == "i should often"
    ensures !IsSubstring(" " + "intimated by" + " ", text)
  {
    AbsentPieceNotSubstring(" ", "intimated by", " ", text, 4);
  }

  lemma ShouldOftenWord9Absent(text: string)
    requires text == "i should often"
    ensures !IsSubstring(" " + "per say" + " ", text)
  {
    AbsentPieceNotSubstring(" ", "per say", " ", text, 0);
  }

  lemma ShouldOftenWord10Absent(text: string)
    requires text == "i should often"
    ensures !IsSubstring(" " + "chocking" + " ", text)
  {
    AbsentPieceNotSubstring(" ", "chocking", " ", text, 0);
  }

  lemma ShouldOftenWord(text: string)
    requires text == "i should often"
    ensures FirstMatch(WordRules, text) == None
  {
    WordRulesPatterns();
    ShouldOftenWord0Absent(text);
    ShouldOftenWord1Absent(text);
    ShouldOftenWord2Absent(text);
    ShouldOftenWord3Absent(text);
    ShouldOftenWord4Absent(text);
    ShouldOftenWord5Absent(text);
    ShouldOftenWord6Absent(text);
    ShouldOftenWord7Absent(text);
    ShouldOftenWord8Absent(text);
    ShouldOftenWord9Absent(text);
    ShouldOftenWord10Absent(text);
    assert !Fires(WordRules[0], text);
    assert !Fires(WordRules[1], text);
    assert !Fires(WordRules[2], text);
    assert !Fires(WordRules[3], text);
    assert !Fires(WordRules[4], text);
    assert !Fires(WordRules[5], text);
    assert !Fires(WordRules[6], text);
    assert !Fires(WordRules[7], text);
    assert !Fires(WordRules[8], text);
    assert !Fires(WordRules[9], text);
    assert !Fires(WordRules[10], text);
  }

  lemma ShouldOftenScan(text: string)
    requires text == "i should often"
    ensures FirstMatch(Catalog, text) == None
  {
    CatalogLayout();
    ShouldOftenModal(text);
    ShouldOftenQuantity(text);
    ShouldOftenLoose(text);
    ShouldOftenIdiom(text);
    ShouldOftenWord(text);
    FirstMatchAppend(ModalRules, QuantityRules, text);
    FirstMatchAppend(ModalRules + QuantityRules, LooseRules, text);
    FirstMatchAppend(ModalRules + QuantityRules + LooseRules, IdiomRules, text);
    FirstMatchAppend(ModalRules + QuantityRules + LooseRules + IdiomRules, WordRules, text);
  }

  lemma ShouldOftenHead(body: string)
    requires body == "I should often"
    ensures body == ['I'] + " should often"
  {
  }

  lemma ShouldOftenRest(rest: string)
    requires rest == " should often"
    ensures '\n' !in rest && forall d :: d in rest ==> !IsUpper(d)
  {
  }

  lemma ShouldOftenLowered()
    ensures [LowerChar('I')] + " should often" == "i should often"
  {
    assert LowerChar('I') == 'i';
  }

  lemma ShouldOftenPrepared(body: string)
    requires body == "I should often"
    ensures Prepare(body) == "i should often"
  {
    ShouldOftenHead(body);
    ShouldOftenRest(" should often");
    PrepareSentence(body, 'I', " should often");
    ShouldOftenLowered();
  }

  /** Fields of rule 0 of `IdiomRules` that the scenarios use. */
  lemma IdiomRulesEntry0()
    ensures IdiomRules[0].exceptions == ["couldn't care less*", "couldn't*", "did you mean"]
    ensures IdiomRules[0].correction == "couldn't care less"
    ensures IdiomRules[0].explanation == Some("If you could care less, you do care, which is the opposite of what you meant to say.")
  {
  }

  /** Fields of rule 0 of `LooseRules` that the scenarios use. */
  lemma LooseRulesEntry0()
    ensures LooseRules[0].exceptions == []
    ensures LooseRules[0].correction == "lose"
    ensures LooseRules[0].explanation == Some(LooseExplanation)
  {
  }

  /** Fields of rule 3 of `ModalRules` that the scenarios use. */
  lemma ModalRulesEntry3()
    ensures ModalRules[3].exceptions == ["of course"]
    ensures ModalRules[3].correction == "should have"
    ensures ModalRules[3].explanation == Some(OfExplanation)
    ensures ModalRules[3].exceptions[0] == "of course"
  {
  }

  /** Fields of rule 4 of `QuantityRules` that the scenarios use. */
  lemma QuantityRulesEntry4()
    ensures QuantityRules[4] == MoreThen
  {
  }

  lemma GibberishChars(body: string)
    requires body == "adskjflkjaslkdjflkjlsjdf"
    ensures '\n' !in body && ' ' !in body && !IsQuoted(body)
    ensures forall c :: c in body ==> !IsUpper(c)
  {
  }

  lemma GibberishPrepared(body: string)
    requires body == "adskjflkjaslkdjflkjlsjdf"
    ensures Prepare(body) == body && ' ' !in body
  {
    GibberishChars(body);
    PrepareSingleLine(body);
    LowerUnchanged(body);
  }

  /** A comment without a single space gets no correction. */
  lemma Gibberish(body: string)
    requires body == "adskjflkjaslkdjflkjlsjdf"
    ensures Select(Catalog, body) == None
  {
    GibberishPrepared(body);
    CatalogIgnoresSpacelessText(Prepare(body));
  }

  /** An empty comment gets no correction, and neither test rule fires
      on empty text. */
  lemma EmptyComment(body: string)
    requires body == ""
    ensures Select(Catalog, body) == None
    ensures Check(Shouldnt, body) == None && Check(MoreThen, body) == None
  {
    assert Split(body, '\n') == [""];
    assert Prepare(body) == "";
    CatalogIgnoresSpacelessText(body);
  }

  /** Neither test rule fires on "aslkdjfljsajdljf". */
  lemma NoSpaceRuleChecks(text: string)
    requires text == "aslkdjfljsajdljf"
    ensures Check(Shouldnt, text) == None && Check(MoreThen, text) == None
  {
    NoSpaceNeverMatches(Shouldnt, text);
    NoSpaceNeverMatches(MoreThen, text);
  }
}
