/**
 * The five reply handlers. The `random.choice` calls are replaced by the
 * indices in a `Picks` value; each handler reads only the indices it needs.
 * The diary bot puts "<name>, " before every reply when it has a non-empty
 * name; the plain bot never does.
 */
module Handlers {
  import opened Text
  import opened Annotation
  import opened Variant
  import opened PointOfView
  import opened SentenceTyper

  const Hedges: seq<string> := ["I don't know ", "I can't say "]

  const Acknowledgements: seq<string> := ["Understood: ", "Got it: "]

  const Answers: seq<string> := ["Yes.", "No.", "Maybe.", "I'm not sure."]

  /** The closing clause of a WH reply. */
  function Deferrals(v: Variant): (r: seq<string>)
    ensures |r| == 3
  {
    if v.NlpBot? then
      [", but I'll try to find out.", ". Perhaps check back with me later.", ". I\U{2019}ll try to figure it out for you."]
    else
      [", but keep reflecting on it.", ". Perhaps write more about it later.", ". Let's think about it together."]
  }

  /** The optional closing sentence of an INSTRUCTION reply. */
  function Suffixes(v: Variant): (r: seq<string>)
    ensures |r| == 2 && r[0] == ""
  {
    if v.NlpBot? then ["", " I'll see what I can do."] else ["", " Let's work on that together."]
  }

  /** The outcomes of the `random.choice` calls for one sentence, as indices into the choice lists. */
  datatype Picks = Picks(hedge: nat, deferral: nat, ack: nat, suffix: nat, answer: nat)

  predicate ValidPicks(p: Picks)
  {
    p.hedge < |Hedges| && p.deferral < 3 && p.ack < |Acknowledgements| && p.suffix < 2 && p.answer < |Answers|
  }

  /** `[chunk.text for chunk in noun_chunks if chunk.root.dep_ == dep]`. */
  function ChunkTexts(chunks: seq<NounChunk>, dep: string): (r: seq<string>)
    ensures r != [] <==> exists i :: 0 <= i < |chunks| && chunks[i].rootDep == dep
    ensures r != [] ==> exists i :: 0 <= i < |chunks| && chunks[i].rootDep == dep && r[0] == chunks[i].text
                                  && forall j :: 0 <= j < i ==> chunks[j].rootDep != dep
    ensures forall t :: t in r ==> exists c :: c in chunks && c.rootDep == dep && c.text == t
  {
    if chunks == [] then []
    else
      var rest := ChunkTexts(chunks[1..], dep);
      if chunks[0].rootDep == dep then
        [chunks[0].text] + rest
      else
        assert forall i :: 1 <= i < |chunks| ==> chunks[i] == chunks[1..][i - 1];
        if rest != [] then
          ghost var i :| 0 <= i < |chunks[1..]| && chunks[1..][i].rootDep == dep && rest[0] == chunks[1..][i].text
                         && forall j :: 0 <= j < i ==> chunks[1..][j].rootDep != dep;
          assert chunks[i + 1].rootDep == dep && forall j :: 0 <= j < i + 1 ==> chunks[j].rootDep != dep;
          rest
        else rest
  }

  predicate VerbsInRange(s: Sentence, verbs: seq<nat>)
  {
    forall j :: 0 <= j < |verbs| ==> verbs[j] < |s.tokens|
  }

  /** `" ".join(sentence[i].text.lower() for i in verbs)`. */
  function PredicateText(s: Sentence, verbs: seq<nat>): string
    requires VerbsInRange(s, verbs)
  {
    JoinSpace(seq(|verbs|, j requires 0 <= j < |verbs| => Lower(s.tokens[verbs[j]].text)))
  }

  /** The first element of a list comprehension's result, when there is one: `if part: reply.append(part[0])`. */
  function FirstOrNone(part: seq<string>): seq<string>
  {
    if part == [] then [] else [part[0]]
  }

  /**
   * The pieces of a WH reply before the rewrite, in order: the lower-cased first
   * word, the first subject chunk, the lower-cased predicate, the first object
   * chunk; each piece that is absent is left out.
   */
  function WhParts(s: Sentence, verbs: seq<nat>): seq<string>
    requires |s.tokens| > 0 && VerbsInRange(s, verbs)
  {
    [Lower(s.tokens[0].text)]
    + FirstOrNone(ChunkTexts(s.chunks, "nsubj"))
    + (if verbs == [] then [] else [PredicateText(s, verbs)])
    + FirstOrNone(ChunkTexts(s.chunks, "dobj"))
  }

  /** `wh_question_handler` before the name prefix. */
  function WhReply(v: Variant, s: Sentence, verbs: seq<nat>, p: Picks): string
    requires |s.tokens| > 0 && VerbsInRange(s, verbs) && ValidPicks(p)
  {
    Hedges[p.hedge] + Rewrite(JoinSpace(WhParts(s, verbs))) + Deferrals(v)[p.deferral]
  }

  /** `f"{user_name}, {reply}" if user_name else reply` in the diary bot; the reply as it is in the plain bot. */
  function Addressed(v: Variant, reply: string): string
  {
    if v.DiaryBot? && v.userName.Some? && v.userName.value != "" then v.userName.value + ", " + reply
    else reply
  }

  /** What `handler(nlp, sentence, verbs_idxs[, user_name])` returns. */
  function Respond(h: Handler, v: Variant, s: Sentence, verbs: seq<nat>, p: Picks): string
    requires ValidPicks(p)
    requires h == WhQuestionHandler ==> |s.tokens| > 0 && VerbsInRange(s, verbs)
  {
    Addressed(v,
      match h
      case WhQuestionHandler => WhReply(v, s, verbs, p)
      case YnQuestionHandler => Answers[p.answer]
      case WishHandler => Acknowledgements[p.ack] + Rewrite(s.text)
      case InstructionHandler => Acknowledgements[p.ack] + Rewrite(s.text) + Suffixes(v)[p.suffix]
      case GenericHandler => Rewrite(s.text))
  }

  /** `wh_question_handler`: the reply list is built by successive appends, then joined and rewritten. */
  method WhQuestionReply(v: Variant, s: Sentence, verbs: seq<nat>, p: Picks) returns (reply: string)
    requires |s.tokens| > 0 && VerbsInRange(s, verbs) && ValidPicks(p)
    ensures reply == Respond(WhQuestionHandler, v, s, verbs, p)
  {
    var parts: seq<string> := [];
    parts := parts + [Lower(s.tokens[0].text)];
    var part := ChunkTexts(s.chunks, "nsubj");
    if part != [] {
      parts := parts + [part[0]];
    }
    assert parts == [Lower(s.tokens[0].text)] + FirstOrNone(part);
    ghost var withSubject := parts;
    if verbs != [] {
      parts := parts + [PredicateText(s, verbs)];
    }
    assert parts == withSubject + (if verbs == [] then [] else [PredicateText(s, verbs)]);
    ghost var withPredicate := parts;
    part := ChunkTexts(s.chunks, "dobj");
    if part != [] {
      parts := parts + [part[0]];
    }
    assert parts == withPredicate + FirstOrNone(part);
    reply := Rewrite(JoinSpace(parts));
    reply := Hedges[p.hedge] + reply;
    reply := reply + Deferrals(v)[p.deferral];
    assert reply == WhReply(v, s, verbs, p);
    reply := Addressed(v, reply);
  }

  /**
   * The WH skeleton starts with the lower-cased first word and holds one piece
   * per constituent present (subject chunk, predicate, object chunk): an
   * absent constituent is left out, with nothing in its place, and every piece
   * after the first is the predicate or the text of a subject or object chunk.
   */
  lemma WhPartsOmitAbsent(s: Sentence, verbs: seq<nat>)
    requires |s.tokens| > 0 && VerbsInRange(s, verbs)
    ensures WhParts(s, verbs)[0] == Lower(s.tokens[0].text)
    ensures |WhParts(s, verbs)| == 1
              + (if exists i :: 0 <= i < |s.chunks| && s.chunks[i].rootDep == "nsubj" then 1 else 0)
              + (if verbs != [] then 1 else 0)
              + (if exists i :: 0 <= i < |s.chunks| && s.chunks[i].rootDep == "dobj" then 1 else 0)
    ensures forall j :: 1 <= j < |WhParts(s, verbs)| ==>
              WhParts(s, verbs)[j] == PredicateText(s, verbs)
              || exists c :: c in s.chunks && (c.rootDep == "nsubj" || c.rootDep == "dobj") && c.text == WhParts(s, verbs)[j]
  {
    var subj := ChunkTexts(s.chunks, "nsubj");
    var obj := ChunkTexts(s.chunks, "dobj");
    assert subj != [] ==> subj[0] in subj;
    assert obj != [] ==> obj[0] in obj;
  }

  /**
   * The WH skeleton's pieces come in a fixed order: the first subject chunk
   * right after the first word, then the predicate, and the first object
   * chunk last.
   */
  lemma WhPartsInOrder(s: Sentence, verbs: seq<nat>)
    requires |s.tokens| > 0 && VerbsInRange(s, verbs)
    ensures var ps := WhParts(s, verbs); var subj := ChunkTexts(s.chunks, "nsubj");
            subj != [] ==> |ps| > 1 && ps[1] == subj[0]
    ensures var ps := WhParts(s, verbs); var subj := ChunkTexts(s.chunks, "nsubj");
            var at := if subj != [] then 2 else 1;
            verbs != [] ==> |ps| > at && ps[at] == PredicateText(s, verbs)
    ensures var ps := WhParts(s, verbs); var obj := ChunkTexts(s.chunks, "dobj");
            obj != [] ==> |ps| > 1 && ps[|ps| - 1] == obj[0]
  {
    var subj := ChunkTexts(s.chunks, "nsubj");
    var obj := ChunkTexts(s.chunks, "dobj");
    var head := [Lower(s.tokens[0].text)] + FirstOrNone(subj);
    var mid := head + (if verbs == [] then [] else [PredicateText(s, verbs)]);
    assert WhParts(s, verbs) == mid + FirstOrNone(obj);
    assert |head| == if subj != [] then 2 else 1;
    assert subj != [] ==> head[1] == subj[0];
    assert verbs != [] ==> mid[|head|] == PredicateText(s, verbs);
  }

  /** A yes/no reply is one of the four canned answers, whatever the sentence says. */
  lemma YnReplyIgnoresSentence(v: Variant, s: Sentence, verbs: seq<nat>, s': Sentence, verbs': seq<nat>, p: Picks)
    requires ValidPicks(p)
    ensures Respond(YnQuestionHandler, v, s, verbs, p) == Respond(YnQuestionHandler, v, s', verbs', p)
    ensures exists a :: a in {"Yes.", "No.", "Maybe.", "I'm not sure."} && Respond(YnQuestionHandler, v, s, verbs, p) == Addressed(v, a)
  {
    assert Answers[p.answer] in {"Yes.", "No.", "Maybe.", "I'm not sure."};
  }

  /** The plain bot's generic reply is the sentence itself exactly when no pronoun key occurs in it. */
  lemma GenericReplyUnchangedIff(s: Sentence, verbs: seq<nat>, p: Picks)
    requires ValidPicks(p)
    ensures Respond(GenericHandler, NlpBot, s, verbs, p) == s.text <==> NoKey(s.text)
  {
    RewriteUnchangedIff(s.text);
  }

  /**
   * A wish reply is "Understood: " or "Got it: " followed by the rewritten
   * sentence; an instruction reply is the same followed by one of the
   * variant's closing sentences, the first of which is empty.
   */
  lemma AcknowledgedReplies(v: Variant, s: Sentence, verbs: seq<nat>, p: Picks)
    requires ValidPicks(p)
    ensures exists a :: a in {"Understood: ", "Got it: "}
                        && Respond(WishHandler, v, s, verbs, p) == Addressed(v, a + Rewrite(s.text))
    ensures exists a, b :: a in {"Understood: ", "Got it: "} && b in Suffixes(v)
                        && Respond(InstructionHandler, v, s, verbs, p) == Addressed(v, a + Rewrite(s.text) + b)
  {
    var a, b := Acknowledgements[p.ack], Suffixes(v)[p.suffix];
    assert a in {"Understood: ", "Got it: "} && b in Suffixes(v);
    assert Respond(WishHandler, v, s, verbs, p) == Addressed(v, a + Rewrite(s.text));
    assert Respond(InstructionHandler, v, s, verbs, p) == Addressed(v, a + Rewrite(s.text) + b);
  }

  /**
   * Every diary reply is "<name>, " followed by the unaddressed reply when the
   * name is non-empty, and the unaddressed reply when it is None or "".
   */
  lemma DiaryAddressesByName(h: Handler, name: Option<string>, day: string, time: string,
                             s: Sentence, verbs: seq<nat>, p: Picks)
    requires ValidPicks(p)
    requires h == WhQuestionHandler ==> |s.tokens| > 0 && VerbsInRange(s, verbs)
    ensures var plain := Respond(h, DiaryBot(None, day, time), s, verbs, p);
            Respond(h, DiaryBot(name, day, time), s, verbs, p)
            == if name.Some? && name.value != "" then name.value + ", " + plain else plain
  {
    assert Deferrals(DiaryBot(name, day, time)) == Deferrals(DiaryBot(None, day, time));
    assert Suffixes(DiaryBot(name, day, time)) == Suffixes(DiaryBot(None, day, time));
  }
}
