/**
 * Whole exchanges worked through the model: annotated sentences as the
 * annotator would hand them over, and the exact replies both bots give for
 * fixed outcomes of the random choices.
 */
module Scenarios {
  import opened Text
  import opened Annotation
  import opened Variant
  import opened PointOfView
  import opened SentenceTyper
  import opened VerbFinder
  import opened Handlers
  import opened Chat

  /** "Where are you going?" as annotated: a WRB opener, the auxiliary, the subject chunk "you", the ROOT verb. */
  const WhereAreYouGoing: Sentence := Sentence(
    "Where are you going?",
    [Token("Where", "SCONJ", "WRB", "advmod", "where"), Token("are", "AUX", "VBP", "aux", "be"),
     Token("you", "PRON", "PRP", "nsubj", "you"), Token("going", "VERB", "VBG", "ROOT", "go"),
     Token("?", "PUNCT", ".", "punct", "?")],
    [NounChunk("you", "nsubj")])

  /** "Please close the door." as annotated: "Please", the ROOT verb, the object chunk "the door". */
  const PleaseCloseTheDoorSentence: Sentence := Sentence(
    "Please close the door.",
    [Token("Please", "INTJ", "UH", "intj", "please"), Token("close", "VERB", "VB", "ROOT", "close"),
     Token("the", "DET", "DT", "det", "the"), Token("door", "NOUN", "NN", "dobj", "door"),
     Token(".", "PUNCT", ".", "punct", ".")],
    [NounChunk("the door", "dobj")])

  /** In "where you going" only "you" is a key: it becomes "I". */
  lemma RewriteWhereYouGoing(s: string)
    requires s == "where you going"
    ensures Rewrite(s) == "where I going"
  {
    calc {
      Rewrite(s);
      RewriteFrom(s, 0);
      { WhereCopied(s); }
      "where " + RewriteFrom(s, 6);
      { YouAtSix(s); }
      "where " + ("I" + RewriteFrom(s, 9));
      { assert s[9..] == " going"; GoingCopied(s, 9); }
      "where " + ("I" + " going");
    }
  }

  lemma WhereCopied(s: string)
    requires s == "where you going"
    ensures RewriteFrom(s, 0) == "where " + RewriteFrom(s, 6)
  {
    assert NoKeyStartIn(s, 0, 6);
    ClearRunCopied(s, 0, 6);
  }

  lemma GoingCopied(s: string, i: nat)
    requires i + 6 == |s| && s[i..] == " going"
    ensures RewriteFrom(s, i) == " going"
  {
    assert s[i] == ' ' && s[i + 1] == 'g';
    NoMatchAtOtherInitial(s, i);
    NoMatchAtOtherInitial(s, i + 1);
    forall p | i + 2 <= p < |s| ensures MatchAt(s, p).None? {
      assert s[p] == s[i..][p - i];
      NoMatchInsideWord(s, p);
    }
    CopyRun(s, i, |s|);
  }

  lemma YouAtSix(s: string)
    requires s == "where you going"
    ensures RewriteFrom(s, 6) == "I" + RewriteFrom(s, 9)
  {
    forall j | 0 <= j < 16 ensures !KeyFitsAt(s, 6, j) { NotEarlierAtSix(s, j); }
    MatchAtIs(s, 6, 16);
    ReplaceAt(s, 6);
  }

  lemma NotEarlierAtSix(s: string, j: nat)
    requires s == "where you going" && j < 16
    ensures !KeyFitsAt(s, 6, j)
  {
    FitStartsAt(s, 6, j);
    KeyIndex(j);
  }

  /** "Please close the door." holds no key. */
  lemma RewritePleaseCloseTheDoor(s: string)
    requires s == "Please close the door."
    ensures Rewrite(s) == s
  {
    ClearStretch(s, 0, 7);
    ClearStretch(s, 7, 13);
    ClearStretch(s, 13, 22);
    NoKeyStartInJoin(s, 0, 7, 13);
    NoKeyStartInJoin(s, 0, 13, 22);
    ClearRunCopied(s, 0, |s|);
  }

  lemma ClearStretch(s: string, i: nat, j: nat)
    requires s == "Please close the door."
    requires (i, j) in {(0, 7), (7, 13), (13, 22)}
    ensures NoKeyStartIn(s, i, j)
  {
  }

  /** Only the WH pattern matches "Where are you going?", so every ranking sends it to the WH handler. */
  lemma WhereAreYouGoingIsWh(v: Variant, rank: seq<Label>)
    requires IsRanking(rank)
    ensures SelectHandler(v, WhereAreYouGoing.tokens, rank) == WhQuestionHandler
  {
    var ts := WhereAreYouGoing.tokens;
    assert Matches(ts, WhQuestion);
    assert forall l: Label :: Matches(ts, l) ==> l == WhQuestion;
  }

  /** The WH skeleton of "Where are you going?": first word, subject chunk, predicate; no object. */
  lemma WhereAreYouGoingParts(s: Sentence)
    requires s == WhereAreYouGoing
    ensures RootPositions(s.tokens) == [3]
    ensures JoinSpace(WhParts(s, [3])) == "where you going"
  {
    WhereRoot(s.tokens);
    WhereSkeleton(s);
    JoinThree("where", "you", "going");
  }

  lemma WhereRoot(ts: seq<Token>)
    requires ts == WhereAreYouGoing.tokens
    ensures RootPositions(ts) == [3]
  {
    assert IsRoot(ts[3]) && forall k :: 0 <= k < 3 ==> !IsRoot(ts[k]);
  }

  lemma WhereSkeleton(s: Sentence)
    requires s == WhereAreYouGoing
    ensures WhParts(s, [3]) == ["where", "you", "going"]
  {
    LowerKnown(s.tokens[0].text, "where");
    WherePredicate(s);
    WhereChunks(s.chunks);
  }

  lemma WherePredicate(s: Sentence)
    requires s == WhereAreYouGoing
    ensures PredicateText(s, [3]) == "going"
  {
    LowerKnown(s.tokens[3].text, "going");
    assert PredicateText(s, [3]) == JoinSpace(["going"]);
  }

  lemma LowerKnown(w: string, l: string)
    requires (w, l) in {("Where", "where"), ("going", "going")}
    ensures Lower(w) == l
  {
  }

  lemma WhereChunks(cs: seq<NounChunk>)
    requires cs == [NounChunk("you", "nsubj")]
    ensures ChunkTexts(cs, "nsubj") == ["you"] && ChunkTexts(cs, "dobj") == []
  {
    assert cs[1..] == [];
  }

  lemma JoinThree(a: string, b: string, c: string)
    ensures JoinSpace([a, b, c]) == a + " " + b + " " + c
  {
    assert [a, b, c][1..] == [b, c];
    assert [b, c][1..] == [c];
    assert JoinSpace([c]) == c;
    assert JoinSpace([b, c]) == b + " " + c;
  }

  /**
   * "Where are you going?" is answered "I don't know where I going, but I'll
   * try to find out." by the plain bot with the first hedge and deferral, and
   * "Ann, I can't say where I going. Let's think about it together." by the
   * diary bot talking to Ann with the second hedge and third deferral.
   */
  lemma WhereAreYouGoingReplies(s: Sentence, day: string, time: string, rank: seq<Label>)
    requires s == WhereAreYouGoing && IsRanking(rank)
    ensures SentenceReply(NlpBot, s, rank, Picks(0, 0, 0, 0, 0))
            == "I don't know " + "where I going" + ", but I'll try to find out."
    ensures SentenceReply(DiaryBot(Some("Ann"), day, time), s, rank, Picks(1, 2, 0, 0, 0))
            == "Ann" + ", " + ("I can't say " + "where I going" + ". Let's think about it together.")
  {
    WhReplyRewritten(NlpBot, s, rank, Picks(0, 0, 0, 0, 0));
    assert Hedges[0] == "I don't know " && Deferrals(NlpBot)[0] == ", but I'll try to find out.";
    WhReplyRewritten(DiaryBot(Some("Ann"), day, time), s, rank, Picks(1, 2, 0, 0, 0));
    assert Hedges[1] == "I can't say " && Deferrals(DiaryBot(Some("Ann"), day, time))[2] == ". Let's think about it together.";
  }

  /** The reply to "Where are you going?" is the hedge, "where I going" and the deferral, addressed. */
  lemma WhReplyRewritten(v: Variant, s: Sentence, rank: seq<Label>, p: Picks)
    requires s == WhereAreYouGoing && IsRanking(rank) && ValidPicks(p)
    ensures SentenceReply(v, s, rank, p) == Addressed(v, Hedges[p.hedge] + "where I going" + Deferrals(v)[p.deferral])
  {
    WhereAreYouGoingIsWh(v, rank);
    WhereAreYouGoingParts(s);
    RewriteWhereYouGoing("where you going");
  }

  /**
   * "Please close the door." is answered "Understood: Please close the door."
   * by the plain bot with the first acknowledgement and the empty closing, and
   * "Ann, Got it: Please close the door. Let's work on that together." by the
   * diary bot talking to Ann with the second of each.
   */
  lemma PleaseCloseTheDoorReplies(s: Sentence, day: string, time: string, rank: seq<Label>)
    requires s == PleaseCloseTheDoorSentence && IsRanking(rank)
    ensures SentenceReply(NlpBot, s, rank, Picks(0, 0, 0, 0, 0)) == "Understood: " + "Please close the door."
    ensures SentenceReply(DiaryBot(Some("Ann"), day, time), s, rank, Picks(0, 0, 1, 1, 0))
            == "Ann" + ", " + ("Got it: " + "Please close the door." + " Let's work on that together.")
  {
    InstructionReplyRewritten(NlpBot, s, rank, Picks(0, 0, 0, 0, 0));
    InstructionReplyRewritten(DiaryBot(Some("Ann"), day, time), s, rank, Picks(0, 0, 1, 1, 0));
  }

  /** The reply to "Please close the door." is the acknowledgement, the sentence unchanged and the closing, addressed. */
  lemma InstructionReplyRewritten(v: Variant, s: Sentence, rank: seq<Label>, p: Picks)
    requires s == PleaseCloseTheDoorSentence && IsRanking(rank) && ValidPicks(p)
    ensures SentenceReply(v, s, rank, p) == Addressed(v, Acknowledgements[p.ack] + s.text + Suffixes(v)[p.suffix])
  {
    PleaseCloseTheDoor(v, s.tokens, rank);
    RewritePleaseCloseTheDoor(s.text);
  }
}
