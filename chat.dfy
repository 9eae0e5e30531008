/**
 * One turn of `chat`: every sentence of the input is given its predicate
 * positions and its handler, the handler's reply is appended followed by one
 * space, and the whole is stripped. The diary bot starts the reply with
 * "[<day>, <time>] ". Reading input, recognising "exit"/"quit", printing and
 * reading the clock are not part of the model; the annotated sentences and
 * the clock's day and time are inputs.
 */
module Chat {
  import opened Text
  import opened Annotation
  import opened Variant
  import opened SentenceTyper
  import opened VerbFinder
  import opened Handlers

  /** What the reply starts with before any sentence is answered. */
  function Header(v: Variant): string
  {
    if v.NlpBot? then "" else "[" + v.day + ", " + v.time + "] "
  }

  /** The reply to one sentence: predicate positions, handler, handler output. */
  function SentenceReply(v: Variant, s: Sentence, rank: seq<Label>, p: Picks): string
    requires IsRanking(rank) && ValidPicks(p)
  {
    var h := SelectHandler(v, s.tokens, rank);
    Respond(h, v, s, RootPositions(s.tokens), p)
  }

  predicate AllValid(picks: seq<Picks>)
  {
    forall k :: 0 <= k < |picks| ==> ValidPicks(picks[k])
  }

  /** The replies to the sentences, one per sentence. */
  function Replies(v: Variant, doc: seq<Sentence>, rank: seq<Label>, picks: seq<Picks>): (rs: seq<string>)
    requires IsRanking(rank) && |picks| == |doc| && AllValid(picks)
    ensures |rs| == |doc|
  {
    if doc == [] then []
    else [SentenceReply(v, doc[0], rank, picks[0])] + Replies(v, doc[1..], rank, picks[1..])
  }

  /** The `k`-th reply is the `k`-th sentence's, from its own picks only: sentences are answered in order and independently. */
  lemma {:induction false} RepliesInOrder(v: Variant, doc: seq<Sentence>, rank: seq<Label>, picks: seq<Picks>, k: nat)
    requires IsRanking(rank) && |picks| == |doc| && AllValid(picks) && k < |doc|
    ensures Replies(v, doc, rank, picks)[k] == SentenceReply(v, doc[k], rank, picks[k])
  {
    if k > 0 {
      RepliesCons(v, doc, rank, picks);
      RepliesInOrder(v, doc[1..], rank, picks[1..], k - 1);
    }
  }

  /** The replies, each followed by one space. */
  function Terminated(rs: seq<string>): string
  {
    if rs == [] then "" else Terminated(rs[..|rs| - 1]) + rs[|rs| - 1] + " "
  }

  /** The reply the turn prints (after "Bot: "). */
  function TurnReply(v: Variant, doc: seq<Sentence>, rank: seq<Label>, picks: seq<Picks>): string
    requires IsRanking(rank) && |picks| == |doc| && AllValid(picks)
  {
    Strip(Header(v) + Terminated(Replies(v, doc, rank, picks)))
  }

  /** `verbfinder(sentence)`, then `sentencetyper(sentence)(nlp, sentence, verbs_idxs[, user_name])`. */
  method AnswerSentence(v: Variant, sentence: Sentence, rank: seq<Label>, p: Picks) returns (r: string)
    requires IsRanking(rank) && ValidPicks(p)
    ensures r == SentenceReply(v, sentence, rank, p)
  {
    var verbs := RootPositions(sentence.tokens);
    var handler := SelectHandler(v, sentence.tokens, rank);
    if handler == WhQuestionHandler {
      r := WhQuestionReply(v, sentence, verbs, p);
    } else {
      r := Respond(handler, v, sentence, verbs, p);
    }
  }

  /** The body of `chat`'s loop for one input line, already annotated into sentences. */
  method ChatTurn(v: Variant, doc: seq<Sentence>, rank: seq<Label>, picks: seq<Picks>) returns (reply: string)
    requires IsRanking(rank) && |picks| == |doc| && AllValid(picks)
    ensures reply == TurnReply(v, doc, rank, picks)
  {
    ghost var rs := Replies(v, doc, rank, picks);
    reply := Header(v);
    var k := 0;
    while k < |doc|
      invariant 0 <= k <= |doc|
      invariant reply == Header(v) + Terminated(rs[..k])
    {
      var r := AnswerSentence(v, doc[k], rank, picks[k]);
      RepliesInOrder(v, doc, rank, picks, k);
      TurnStep(Header(v), rs, k, reply, r);
      reply := reply + r + " ";
      k := k + 1;
    }
    assert rs[..|doc|] == rs;
    reply := Strip(reply);
  }

  /** Appending the next reply and a space extends the terminated prefix by one reply. */
  lemma TurnStep(h: string, rs: seq<string>, k: nat, reply: string, r: string)
    requires k < |rs| && reply == h + Terminated(rs[..k]) && r == rs[k]
    ensures reply + r + " " == h + Terminated(rs[..k + 1])
  {
    assert rs[..k + 1][..k] == rs[..k];
    assert Terminated(rs[..k + 1]) == Terminated(rs[..k]) + rs[k] + " ";
  }

  lemma {:induction false} TerminatedIsJoinPlusSpace(rs: seq<string>)
    requires rs != []
    ensures Terminated(rs) == JoinSpace(rs) + " "
    decreases |rs|
  {
    if |rs| > 1 {
      var init := rs[..|rs| - 1];
      TerminatedIsJoinPlusSpace(init);
      JoinSpaceSnoc(init, rs[|rs| - 1]);
      assert init + [rs[|rs| - 1]] == rs;
    }
  }

  /** A reply that neither is empty nor starts or ends with whitespace at the given end. */
  predicate StartsClean(r: string)
  {
    r != [] && !IsSpace(r[0])
  }

  predicate EndsClean(r: string)
  {
    r != [] && !IsSpace(r[|r| - 1])
  }

  /**
   * The plain bot's turn reply is the sentences' replies in sentence order
   * with exactly one space between neighbours, provided the first reply does
   * not start and the last does not end with whitespace; no sentence gives "".
   */
  lemma NlpTurnJoinsReplies(doc: seq<Sentence>, rank: seq<Label>, picks: seq<Picks>)
    requires IsRanking(rank) && |picks| == |doc| && AllValid(picks)
    requires var rs := Replies(NlpBot, doc, rank, picks);
             rs != [] ==> StartsClean(rs[0]) && EndsClean(rs[|rs| - 1])
    ensures TurnReply(NlpBot, doc, rank, picks) == JoinSpace(Replies(NlpBot, doc, rank, picks))
  {
    CleanRepliesStripped(Replies(NlpBot, doc, rank, picks));
  }

  lemma CleanRepliesStripped(rs: seq<string>)
    requires rs != [] ==> StartsClean(rs[0]) && EndsClean(rs[|rs| - 1])
    ensures Strip("" + Terminated(rs)) == JoinSpace(rs)
  {
    if rs != [] {
      TerminatedIsJoinPlusSpace(rs);
      JoinSpaceFirst(rs);
      JoinSpaceLast(rs);
      CleanJoinStripped(JoinSpace(rs));
    } else {
      assert "" + Terminated(rs) == "";
    }
  }

  lemma CleanJoinStripped(j: string)
    requires j != [] && !IsSpace(j[0]) && !IsSpace(j[|j| - 1])
    ensures Strip("" + (j + " ")) == j
  {
    assert "" + (j + " ") == j + " ";
    StripTrailingSpace(j);
  }

  /** Every diary turn reply starts with "[<day>, <time>]", whatever the replies are. */
  lemma DiaryTurnStamped(name: Option<string>, day: string, time: string,
                         doc: seq<Sentence>, rank: seq<Label>, picks: seq<Picks>)
    requires IsRanking(rank) && |picks| == |doc| && AllValid(picks)
    ensures var stamp := "[" + day + ", " + time + "]";
            var r := TurnReply(DiaryBot(name, day, time), doc, rank, picks);
            |r| >= |stamp| && r[..|stamp|] == stamp
  {
    StampSurvivesStrip(name, day, time, Terminated(Replies(DiaryBot(name, day, time), doc, rank, picks)));
  }

  lemma StampSurvivesStrip(name: Option<string>, day: string, time: string, rest: string)
    ensures var stamp := "[" + day + ", " + time + "]";
            var r := Strip(Header(DiaryBot(name, day, time)) + rest);
            |r| >= |stamp| && r[..|stamp|] == stamp
  {
    var stamp := "[" + day + ", " + time + "]";
    assert Header(DiaryBot(name, day, time)) + rest == stamp + (" " + rest);
    StripKeepsStamp(stamp, " " + rest);
  }

  /** A string that starts with a word neither starting nor ending with whitespace keeps that word through `Strip`. */
  lemma StripKeepsStamp(stamp: string, rest: string)
    requires stamp != [] && !IsSpace(stamp[0]) && !IsSpace(stamp[|stamp| - 1])
    ensures |Strip(stamp + rest)| >= |stamp| && Strip(stamp + rest)[..|stamp|] == stamp
  {
    var all := stamp + rest;
    StripFromNonSpace(all);
    var r := StripRight(all);
    assert all[|stamp| - 1] == stamp[|stamp| - 1];
    assert |r| >= |stamp|;
    assert r[..|stamp|] == all[..|stamp|] == stamp;
  }

  /**
   * The diary bot's turn reply is "[<day>, <time>]", then, when there are
   * sentences, one space and the replies joined by single spaces, provided the
   * last reply does not end with whitespace.
   */
  lemma DiaryTurnJoinsReplies(name: Option<string>, day: string, time: string,
                              doc: seq<Sentence>, rank: seq<Label>, picks: seq<Picks>)
    requires IsRanking(rank) && |picks| == |doc| && AllValid(picks)
    requires var rs := Replies(DiaryBot(name, day, time), doc, rank, picks);
             rs != [] ==> EndsClean(rs[|rs| - 1])
    ensures var rs := Replies(DiaryBot(name, day, time), doc, rank, picks);
            TurnReply(DiaryBot(name, day, time), doc, rank, picks)
            == "[" + day + ", " + time + "]" + (if rs == [] then "" else " " + JoinSpace(rs))
  {
    var v := DiaryBot(name, day, time);
    var stamp := "[" + day + ", " + time + "]";
    assert Header(v) == stamp + " ";
    StampedStrip(stamp, Replies(v, doc, rank, picks));
  }

  lemma StampedStrip(stamp: string, rs: seq<string>)
    requires stamp != [] && !IsSpace(stamp[0]) && !IsSpace(stamp[|stamp| - 1])
    requires rs != [] ==> EndsClean(rs[|rs| - 1])
    ensures Strip(stamp + " " + Terminated(rs)) == stamp + (if rs == [] then "" else " " + JoinSpace(rs))
  {
    if rs == [] {
      StripTrailingSpace(stamp);
      assert stamp + " " + Terminated(rs) == stamp + " ";
      assert stamp + "" == stamp;
    } else {
      StampedStripNonEmpty(stamp, rs);
    }
  }

  lemma StampedStripNonEmpty(stamp: string, rs: seq<string>)
    requires stamp != [] && !IsSpace(stamp[0])
    requires rs != [] && EndsClean(rs[|rs| - 1])
    ensures Strip(stamp + " " + Terminated(rs)) == stamp + (" " + JoinSpace(rs))
  {
    TerminatedIsJoinPlusSpace(rs);
    JoinSpaceLast(rs);
    StripStamped(stamp, JoinSpace(rs));
  }

  lemma StripStamped(stamp: string, j: string)
    requires stamp != [] && !IsSpace(stamp[0]) && j != [] && !IsSpace(j[|j| - 1])
    ensures Strip(stamp + " " + (j + " ")) == stamp + (" " + j)
  {
    var body := stamp + (" " + j);
    assert body[|body| - 1] == j[|j| - 1];
    assert body[0] == stamp[0];
    StripTrailingSpace(body);
    assert stamp + " " + (j + " ") == body + " ";
  }

  lemma AllValidConcat(picks1: seq<Picks>, picks2: seq<Picks>)
    requires AllValid(picks1) && AllValid(picks2)
    ensures AllValid(picks1 + picks2)
  {
    forall k | 0 <= k < |picks1 + picks2| ensures ValidPicks((picks1 + picks2)[k]) {
      if k < |picks1| {
        assert (picks1 + picks2)[k] == picks1[k];
      } else {
        assert (picks1 + picks2)[k] == picks2[k - |picks1|];
      }
    }
  }

  /** The replies to a non-empty run of sentences: the first sentence's reply, then the rest's. */
  lemma RepliesCons(v: Variant, doc: seq<Sentence>, rank: seq<Label>, picks: seq<Picks>)
    requires IsRanking(rank) && |picks| == |doc| && AllValid(picks) && doc != []
    ensures AllValid(picks[1..])
    ensures Replies(v, doc, rank, picks) == [SentenceReply(v, doc[0], rank, picks[0])] + Replies(v, doc[1..], rank, picks[1..])
  {
    forall k | 0 <= k < |picks[1..]| ensures ValidPicks(picks[1..][k]) {
      assert picks[1..][k] == picks[k + 1];
    }
  }

  /** Each sentence is answered on its own: the replies to two runs of sentences are the replies to each run. */
  lemma RepliesSplit(v: Variant, doc1: seq<Sentence>, doc2: seq<Sentence>, rank: seq<Label>,
                     picks1: seq<Picks>, picks2: seq<Picks>)
    requires IsRanking(rank) && |picks1| == |doc1| && AllValid(picks1) && |picks2| == |doc2| && AllValid(picks2)
    ensures AllValid(picks1 + picks2)
    ensures Replies(v, doc1 + doc2, rank, picks1 + picks2) == Replies(v, doc1, rank, picks1) + Replies(v, doc2, rank, picks2)
  {
    AllValidConcat(picks1, picks2);
    var whole := Replies(v, doc1 + doc2, rank, picks1 + picks2);
    var parts := Replies(v, doc1, rank, picks1) + Replies(v, doc2, rank, picks2);
    forall k | 0 <= k < |whole| ensures whole[k] == parts[k] {
      ReplyOfSplit(v, doc1, doc2, rank, picks1, picks2, k);
    }
  }

  lemma ReplyOfSplit(v: Variant, doc1: seq<Sentence>, doc2: seq<Sentence>, rank: seq<Label>,
                     picks1: seq<Picks>, picks2: seq<Picks>, k: nat)
    requires IsRanking(rank) && |picks1| == |doc1| && AllValid(picks1) && |picks2| == |doc2| && AllValid(picks2)
    requires AllValid(picks1 + picks2) && k < |doc1| + |doc2|
    ensures Replies(v, doc1 + doc2, rank, picks1 + picks2)[k]
            == (Replies(v, doc1, rank, picks1) + Replies(v, doc2, rank, picks2))[k]
  {
    RepliesInOrder(v, doc1 + doc2, rank, picks1 + picks2, k);
    if k < |doc1| {
      assert (doc1 + doc2)[k] == doc1[k] && (picks1 + picks2)[k] == picks1[k];
      RepliesInOrder(v, doc1, rank, picks1, k);
    } else {
      assert (doc1 + doc2)[k] == doc2[k - |doc1|] && (picks1 + picks2)[k] == picks2[k - |doc1|];
      RepliesInOrder(v, doc2, rank, picks2, k - |doc1|);
    }
  }
}
