/**
 * `SentenceTyper`: the token patterns that decide the kind of sentence and the
 * reply handler it is sent to. Every pattern starts with `IS_SENT_START` and
 * runs on `sentence.as_doc()`, whose only sentence start is token 0, so every
 * pattern is tested at token 0 and nowhere else.
 *
 * When patterns of several labels match, the source takes the first match in
 * the Matcher's result list, an order the source does not fix. Here that
 * choice is the explicit `rank` parameter: the first label of `rank` whose
 * pattern matches wins.
 */
module SentenceTyper {
  import opened Text
  import opened Annotation
  import opened Variant

  datatype Label = WhQuestion | YnQuestion | Instruction | Wish

  datatype Handler = WhQuestionHandler | YnQuestionHandler | WishHandler | InstructionHandler | GenericHandler

  /** WH-QUESTION: token 0 tagged WDT, WP, WP$ or WRB. */
  predicate WhPattern(ts: seq<Token>)
  {
    |ts| >= 1 && ts[0].tag in {"WDT", "WP", "WP$", "WRB"}
  }

  /** YN-QUESTION, first pattern: a modal, then a pronoun, proper noun or determiner. */
  predicate YnPattern1(ts: seq<Token>)
  {
    |ts| >= 2 && ts[0].tag == "MD" && ts[1].pos in {"PRON", "PROPN", "DET"}
  }

  /** YN-QUESTION, second pattern: a verb, a pronoun, proper noun or determiner, a verb. */
  predicate YnPattern2(ts: seq<Token>)
  {
    |ts| >= 3 && ts[0].pos == "VERB" && ts[1].pos in {"PRON", "PROPN", "DET"} && ts[2].pos == "VERB"
  }

  /** INSTRUCTION, first pattern: a base-form verb. */
  predicate InstructionPattern1(ts: seq<Token>)
  {
    |ts| >= 1 && ts[0].tag == "VB"
  }

  /** INSTRUCTION, second pattern: "please" or "kindly" in any case, then a base-form verb. */
  predicate InstructionPattern2(ts: seq<Token>)
  {
    |ts| >= 2 && LowerOf(ts[0]) in {"please", "kindly"} && ts[1].tag == "VB"
  }

  /** WISH, first pattern: a personal pronoun, a modal, then the verb love, like or appreciate. */
  predicate WishPattern1(ts: seq<Token>)
  {
    && |ts| >= 3 && ts[0].tag == "PRP" && ts[1].tag == "MD"
    && ts[2].pos == "VERB" && ts[2].lemmaForm in {"love", "like", "appreciate"}
  }

  /** WISH, second pattern: a personal pronoun, then the verb want, need or require. */
  predicate WishPattern2(ts: seq<Token>)
  {
    |ts| >= 2 && ts[0].tag == "PRP" && ts[1].pos == "VERB" && ts[1].lemmaForm in {"want", "need", "require"}
  }

  /** Some pattern registered under label `l` matches at token 0. */
  predicate Matches(ts: seq<Token>, l: Label)
  {
    match l
    case WhQuestion => WhPattern(ts)
    case YnQuestion => YnPattern1(ts) || YnPattern2(ts)
    case Instruction => InstructionPattern1(ts) || InstructionPattern2(ts)
    case Wish => WishPattern1(ts) || WishPattern2(ts)
  }

  /** A ranking names every label (in the order that decides between matches). */
  predicate IsRanking(rank: seq<Label>)
  {
    WhQuestion in rank && YnQuestion in rank && Instruction in rank && Wish in rank
  }

  /** The order in which `SentenceTyper.__init__` registers the labels: WH, YN, INSTRUCTION, WISH. */
  const RegistrationOrder: seq<Label> := [WhQuestion, YnQuestion, Instruction, Wish]

  /** The label of the first match: the first label of `rank` whose pattern matches, if any. */
  function Classify(ts: seq<Token>, rank: seq<Label>): (r: Option<Label>)
    ensures r.Some? ==> Matches(ts, r.value)
    ensures r.Some? ==> exists i :: 0 <= i < |rank| && rank[i] == r.value
                                 && forall j :: 0 <= j < i ==> !Matches(ts, rank[j])
    ensures r.None? <==> forall l :: l in rank ==> !Matches(ts, l)
  {
    if rank == [] then None
    else if Matches(ts, rank[0]) then Some(rank[0])
    else
      var r := Classify(ts, rank[1..]);
      assert forall l :: l in rank ==> l == rank[0] || l in rank[1..];
      if r.Some? then
        ghost var i :| 0 <= i < |rank[1..]| && rank[1..][i] == r.value
                       && forall j :: 0 <= j < i ==> !Matches(ts, rank[1..][j]);
        assert rank[i + 1] == r.value && forall j :: 0 <= j < i + 1 ==> !Matches(ts, rank[j]);
        r
      else r
  }

  /** The handler a label is sent to: the one place where the two bots differ. */
  function Dispatch(v: Variant, r: Option<Label>): Handler
  {
    match r
    case None => GenericHandler
    case Some(WhQuestion) => WhQuestionHandler
    case Some(YnQuestion) => if v.NlpBot? then GenericHandler else YnQuestionHandler
    case Some(Wish) => WishHandler
    case Some(Instruction) => InstructionHandler
  }

  /** `SentenceTyper.__call__`: classify the sentence and pick its handler. */
  function SelectHandler(v: Variant, ts: seq<Token>, rank: seq<Label>): (h: Handler)
    requires IsRanking(rank)
    ensures h == WhQuestionHandler ==> WhPattern(ts)
    ensures h == WhQuestionHandler <==> Classify(ts, rank) == Some(WhQuestion)
    ensures h == WishHandler <==> Classify(ts, rank) == Some(Wish)
    ensures h == InstructionHandler <==> Classify(ts, rank) == Some(Instruction)
    ensures h == YnQuestionHandler <==> v.DiaryBot? && Classify(ts, rank) == Some(YnQuestion)
    ensures h == GenericHandler <==> Classify(ts, rank).None? || (v.NlpBot? && Classify(ts, rank) == Some(YnQuestion))
  {
    Dispatch(v, Classify(ts, rank))
  }

  lemma RegistrationOrderIsRanking()
    ensures IsRanking(RegistrationOrder)
  {
    forall l: Label ensures l in RegistrationOrder {
      match l
      case WhQuestion => assert RegistrationOrder[0] == l;
      case YnQuestion => assert RegistrationOrder[1] == l;
      case Instruction => assert RegistrationOrder[2] == l;
      case Wish => assert RegistrationOrder[3] == l;
    }
  }

  /** The label at `rank[i]` is chosen exactly when it matches and no label before it does. */
  lemma {:induction false} ClassifySelects(ts: seq<Token>, rank: seq<Label>, i: nat)
    requires i < |rank|
    ensures Matches(ts, rank[i]) && (forall j :: 0 <= j < i ==> !Matches(ts, rank[j]))
            ==> Classify(ts, rank) == Some(rank[i])
  {
    if Matches(ts, rank[i]) && (forall j :: 0 <= j < i ==> !Matches(ts, rank[j])) && i > 0 {
      assert !Matches(ts, rank[0]);
      ClassifySelects(ts, rank[1..], i - 1);
    }
  }

  /**
   * Under the registration order the outcome is: WH if its pattern matches,
   * otherwise YN, otherwise INSTRUCTION, otherwise WISH, otherwise none,
   * whatever the rest of the sentence holds.
   */
  lemma RegistrationOrderOutcome(ts: seq<Token>)
    ensures Classify(ts, RegistrationOrder) ==
      if Matches(ts, WhQuestion) then Some(WhQuestion)
      else if Matches(ts, YnQuestion) then Some(YnQuestion)
      else if Matches(ts, Instruction) then Some(Instruction)
      else if Matches(ts, Wish) then Some(Wish)
      else None
  {
    if Matches(ts, WhQuestion) {
      ClassifySelects(ts, RegistrationOrder, 0);
    } else if Matches(ts, YnQuestion) {
      ClassifySelects(ts, RegistrationOrder, 1);
    } else if Matches(ts, Instruction) {
      ClassifySelects(ts, RegistrationOrder, 2);
    } else if Matches(ts, Wish) {
      ClassifySelects(ts, RegistrationOrder, 3);
    } else {
      RegistrationOrderIsRanking();
    }
  }

  /**
   * The generic handler is chosen exactly when no pattern matches, or, in the
   * plain bot only, when the chosen label is YN-QUESTION. The yes/no handler
   * is reachable in the diary bot only.
   */
  lemma GenericHandlerIff(v: Variant, ts: seq<Token>, rank: seq<Label>)
    requires IsRanking(rank)
    ensures SelectHandler(v, ts, rank) == GenericHandler
            <==> (forall l: Label :: !Matches(ts, l)) || (v.NlpBot? && Classify(ts, rank) == Some(YnQuestion))
    ensures SelectHandler(v, ts, rank) == YnQuestionHandler
            <==> v.DiaryBot? && Classify(ts, rank) == Some(YnQuestion)
  {
  }

  /** The attributes the patterns read: tag, part of speech, lower-case text and lemma of the first three tokens. */
  function PatternView(ts: seq<Token>): (w: seq<(string, string, string, string)>)
    ensures |w| == if |ts| < 3 then |ts| else 3
  {
    var n := if |ts| < 3 then |ts| else 3;
    seq(n, k requires 0 <= k < n => (ts[k].tag, ts[k].pos, LowerOf(ts[k]), ts[k].lemmaForm))
  }

  lemma {:induction false} ClassifyAgrees(ts: seq<Token>, us: seq<Token>, rank: seq<Label>)
    requires forall l: Label :: Matches(ts, l) == Matches(us, l)
    ensures Classify(ts, rank) == Classify(us, rank)
  {
    if rank != [] && !Matches(ts, rank[0]) {
      ClassifyAgrees(ts, us, rank[1..]);
    }
  }

  /** Classification reads nothing but the first three tokens' tag, part of speech, lower-case text and lemma. */
  lemma ClassifyReadsFirstThree(ts: seq<Token>, us: seq<Token>, rank: seq<Label>)
    requires PatternView(ts) == PatternView(us)
    ensures Classify(ts, rank) == Classify(us, rank)
  {
    var n := if |ts| < 3 then |ts| else 3;
    assert |us| >= 3 <==> |ts| >= 3;
    forall k | 0 <= k < n
      ensures ts[k].tag == us[k].tag && ts[k].pos == us[k].pos
      ensures LowerOf(ts[k]) == LowerOf(us[k]) && ts[k].lemmaForm == us[k].lemmaForm
    {
      assert PatternView(ts)[k] == PatternView(us)[k];
    }
    ClassifyAgrees(ts, us, rank);
  }

  /**
   * Two labels can match the same sentence only through a pattern that does
   * not key on token 0's tag: YN pattern 2 (verb, pronoun, verb) or
   * INSTRUCTION pattern 2 ("please"/"kindly", verb). Without one of those the
   * ranking makes no difference.
   */
  lemma OverlapNeedsUntaggedStart(ts: seq<Token>, l1: Label, l2: Label)
    requires l1 != l2 && Matches(ts, l1) && Matches(ts, l2)
    ensures YnPattern2(ts) || InstructionPattern2(ts)
  {
  }

  /** When at most one label matches, every ranking gives the same classification. */
  lemma RankingIrrelevantWhenUnambiguous(ts: seq<Token>, r1: seq<Label>, r2: seq<Label>)
    requires IsRanking(r1) && IsRanking(r2)
    requires forall l1: Label, l2: Label :: Matches(ts, l1) && Matches(ts, l2) ==> l1 == l2
    ensures Classify(ts, r1) == Classify(ts, r2)
  {
  }

  /** A ranking under which the shortest pattern, INSTRUCTION's single verb, comes first. */
  const InstructionFirst: seq<Label> := [Instruction, WhQuestion, YnQuestion, Wish]

  /**
   * "Let them go": a base-form verb, a pronoun, a verb. Both YN pattern 2 and
   * INSTRUCTION pattern 1 match, so the outcome is the ranking's: YN under the
   * registration order (the generic handler in the plain bot, the yes/no
   * handler in the diary bot), INSTRUCTION when INSTRUCTION ranks first.
   */
  lemma LetThemGo(ts: seq<Token>, name: Option<string>, day: string, time: string)
    requires ts == [Token("Let", "VERB", "VB", "ROOT", "let"), Token("them", "PRON", "PRP", "nsubj", "they"),
                    Token("go", "VERB", "VB", "ccomp", "go")]
    ensures Matches(ts, YnQuestion) && Matches(ts, Instruction)
    ensures SelectHandler(NlpBot, ts, RegistrationOrder) == GenericHandler
    ensures SelectHandler(DiaryBot(name, day, time), ts, RegistrationOrder) == YnQuestionHandler
    ensures SelectHandler(NlpBot, ts, InstructionFirst) == InstructionHandler
  {
    assert !Matches(ts, WhQuestion);
    ClassifySelects(ts, RegistrationOrder, 1);
    ClassifySelects(ts, InstructionFirst, 0);
  }

  /**
   * "please" or "kindly", in any case, followed by a base-form verb is an
   * instruction under every ranking, provided token 0 is not tagged as a WH
   * word, a modal or a personal pronoun and is not a verb (the openings of the
   * other labels' patterns).
   */
  lemma PleaseVerbIsInstruction(v: Variant, ts: seq<Token>, rank: seq<Label>)
    requires |ts| >= 2 && LowerOf(ts[0]) in {"please", "kindly"} && ts[1].tag == "VB"
    requires ts[0].tag !in {"WDT", "WP", "WP$", "WRB", "MD", "PRP"} && ts[0].pos != "VERB"
    requires IsRanking(rank)
    ensures SelectHandler(v, ts, rank) == InstructionHandler
  {
    assert Matches(ts, Instruction);
    assert forall l: Label :: Matches(ts, l) ==> l == Instruction;
  }

  /** "Please close the door." as annotated is an instruction under every ranking. */
  lemma PleaseCloseTheDoor(v: Variant, ts: seq<Token>, rank: seq<Label>)
    requires ts == [Token("Please", "INTJ", "UH", "intj", "please"), Token("close", "VERB", "VB", "ROOT", "close"),
                    Token("the", "DET", "DT", "det", "the"), Token("door", "NOUN", "NN", "dobj", "door"),
                    Token(".", "PUNCT", ".", "punct", ".")]
    requires IsRanking(rank)
    ensures SelectHandler(v, ts, rank) == InstructionHandler
  {
    assert LowerOf(ts[0]) == "please";
    PleaseVerbIsInstruction(v, ts, rank);
  }
}
