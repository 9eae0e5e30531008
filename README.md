# Rule-based chat bots: a Dafny model

This project models the core of two near-identical console chat bots,
`Technologies/NLP/NLP-Bot.py` (the plain bot) and
`Technologies/NLP/Diary-Bot.py` (the diary bot). Both bots take a line the
user typed, already split into annotated sentences, and answer each sentence
in four steps:

1. **Classify.** `SentenceTyper` tests a fixed set of token patterns, all
   anchored at the first token. It picks a reply handler: WH question, yes/no
   question, instruction, wish, or the generic fallback.
2. **Find the predicate.** `VerbFinder` returns the position of the
   dependency-ROOT token.
3. **Reply.** The chosen handler fills a template. Most handlers apply the
   point-of-view rewrite, which is the `povs` table compiled into one regular
   expression and applied with `re.sub`.
4. **Assemble the turn.** Each sentence's reply is appended, followed by one
   space, and the whole is stripped.

The bots share one core, parameterised by `Variant.Variant`. They differ in a
few places:

- The plain bot sends a yes/no question to the generic handler; the diary bot
  sends it to the yes/no handler.
- They use different wording for the WH deferral and the instruction closing.
- The diary bot addresses the user by name: `"<name>, "` before every reply.
- The diary bot stamps every turn with `"[<day>, <time>] "`.

Modules:

- `Text`: `\w`, `str.lower`, `str.isspace`, `" ".join` and `str.strip`.
- `PointOfView`: the `povs` table and the `re.sub` scan.
- `Annotation`: the annotator's output, meaning tokens and noun chunks.
- `Variant`: which bot is running, and the diary bot's name, day and time.
- `SentenceTyper`: patterns, ranking and dispatch.
- `VerbFinder`: the ROOT position.
- `Handlers`: the five handlers and the name prefix. The WH handler's list
  building is a method proved against the handler function.
- `Chat`: one turn of `chat`. The loop is a method proved against
  `TurnReply`.
- `Scenarios`: two annotated sentences answered end to end.

### Choices the source leaves open

- **Rewrite matching.** `re.sub` with the pattern `\b(k0|k1|...)\b` is one
  left-to-right scan of the original string.
  - At a word boundary, the keys are tried in table order. A key whose
    trailing `\b` fails is given up for the next key.
  - The first key that fits is replaced by its value.
  - Values are never scanned again, and matching is case-sensitive.
- **Matcher order.** When patterns of two labels both match, the Matcher's
  `matches[0]` decides, and the source does not fix that order. The model
  makes it an explicit parameter, `rank`. The first label in `rank` whose
  pattern matches wins.
  - `RegistrationOrder` is the order in which `SentenceTyper.__init__`
    registers the labels: WH, YN, INSTRUCTION, WISH.
  - `LetThemGo` shows that the choice matters. `RankingIrrelevantWhenUnambiguous`
    shows it matters only when two labels match.
- **Random choices.** Every `random.choice` is replaced by an index in a
  `Handlers.Picks` value.

### How the code settles overlapping matches

- **Rewrite.** At one position, the compiled alternation takes the first key
  in table order that is followed by `\b`. `PointOfView.MatchIsLongest` proves
  that, for this table, that key is also the longest key that fits there, so
  "I am" is never cut short to "I", and "yours" is never cut short to "your".
- **Classification.** When patterns of two labels match the same sentence,
  `__call__` takes the Matcher's first match. The model keeps that order as
  the `rank` parameter. `rank` must name all four labels (`IsRanking`), as any
  order the Matcher produces does. `RegistrationOrder` is one such order.
- **Predicate positions.** `VerbFinder` returns the positions of the first
  DependencyMatcher match only. Each match is one ROOT token, so the result
  holds at most one position. The model returns the lowest ROOT position, or
  nothing.
- **Turn separator.** The code strips only the ends of the whole turn. So
  replies are separated by exactly one space only when the replies carry no
  whitespace at their own ends. `Chat.NlpTurnJoinsReplies` and
  `Chat.DiaryTurnJoinsReplies` state when that holds.

## Model

| member | source | states |
|---|---|---|
| Text.IsWordChar | Technologies/NLP/NLP-Bot.py:21 | the `\w` class the compiled pattern's `\b` is judged by: an ASCII letter, a digit or the underscore |
| Text.IsSpace | Technologies/NLP/NLP-Bot.py:132 | the characters `str.isspace()` accepts, which `reply.strip()` removes: space, tab through carriage return (U+0009-U+000D), U+001C-U+001F, U+0085, U+00A0, U+1680, U+2000-U+200A, U+2028, U+2029, U+202F, U+205F and U+3000 |
| Text.LowerChar | Technologies/NLP/NLP-Bot.py:26 | one character of `str.lower()`: an ASCII capital becomes the letter 32 code points above it, and every other character is kept |
| Text.Lower | Technologies/NLP/NLP-Bot.py:26 | `str.lower()`: the same length; every ASCII capital becomes its lower-case letter and every other character is kept |
| Text.Strip | Technologies/NLP/NLP-Bot.py:132 | `str.strip()`: the result is a slice of the input with only whitespace outside it, and it neither starts nor ends with whitespace |
| Text.JoinSpace | Technologies/NLP/NLP-Bot.py:33 | `" ".join(parts)`: the parts in order with one space between neighbours |
| Text.StripLeft | Technologies/NLP/NLP-Bot.py:132 | the leading half of `strip()`: a suffix of the input, with only whitespace dropped, that is empty or starts with a non-space |
| Text.StripRight | Technologies/NLP/NLP-Bot.py:132 | the trailing half of `strip()`: a prefix of the input, with only whitespace dropped, that is empty or ends with a non-space |
| Text.StripFromNonSpace | Technologies/NLP/NLP-Bot.py:132 | a string that starts with a non-space loses only its trailing whitespace to `strip()` |
| Text.JoinSpaceSnoc | Technologies/NLP/NLP-Bot.py:30 | `" ".join` of a list with one more part is the old join, one space, and the new part |
| Text.JoinSpaceFirst | Technologies/NLP/NLP-Bot.py:33 | `" ".join` starts with the first part's first character |
| Text.JoinSpaceLast | Technologies/NLP/NLP-Bot.py:33 | `" ".join` ends with the last part's last character |
| Text.StripTrailingSpace | Technologies/NLP/NLP-Bot.py:132 | stripping a word that has one space after it removes that space and nothing else |
| PointOfView.Table | Technologies/NLP/NLP-Bot.py:16-20 | the `povs` table, its 18 entries in declaration order, which is the alternation order of the compiled pattern |
| PointOfView.Key | Technologies/NLP/NLP-Bot.py:16-20 | the `k`-th key of `povs` |
| PointOfView.Value | Technologies/NLP/NLP-Bot.py:16-20 | the `k`-th key's replacement |
| PointOfView.Boundary | Technologies/NLP/NLP-Bot.py:21 | the pattern's `\b` at a position: a word character on exactly one side of it |
| PointOfView.KeyFitsAt | Technologies/NLP/NLP-Bot.py:21 | one alternative of the pattern at a position: the key occurs there and is followed by `\b` |
| PointOfView.NoKey | Technologies/NLP/NLP-Bot.py:21 | the pattern matches nowhere in the string |
| PointOfView.Rewrite | Technologies/NLP/NLP-Bot.py:33 | `re.sub(povs_c, ...)` on a whole string; its properties are stated by the lemmas below (`RewriteUnchangedIff`, `MatchIsLongest`, `RewriteKeyAlone`, `SymmetricRoundTrip`) |
| PointOfView.RewriteFrom | Technologies/NLP/NLP-Bot.py:21 | one left-to-right scan from position `i`: where `MatchAt` finds a key, emit its value and skip the key; elsewhere copy one character; boundaries are judged on the original string |
| PointOfView.FirstFit | Technologies/NLP/NLP-Bot.py:21 | ordered alternation: the result fits, and no earlier key (from `from` on) fits; None exactly when no key fits |
| PointOfView.MatchAt | Technologies/NLP/NLP-Bot.py:21 | a match needs the leading `\b` and a key followed by `\b`; it is the first such key in table order; None exactly when there is no boundary or no key fits |
| PointOfView.RewriteUnchangedIff | Technologies/NLP/NLP-Bot.py:16-21 | the rewrite leaves a string unchanged if and only if no table key stands between word boundaries in it |
| PointOfView.RewriteFromUnchanged | Technologies/NLP/NLP-Bot.py:21 | both directions of the previous row, for every suffix of the scan |
| PointOfView.UnchangedHasNoMatch | Technologies/NLP/NLP-Bot.py:21 | a suffix the rewrite leaves unchanged holds no match at any position |
| PointOfView.ReplacedDiffers | Technologies/NLP/NLP-Bot.py:16-21 | where a key matches, the rewrite of the rest starts with a different character from the original rest, so the two differ |
| PointOfView.ValueDiffersFromKey | Technologies/NLP/NLP-Bot.py:16-20 | every key and value is non-empty, and each value starts with a different character from its key |
| PointOfView.TableOrder | Technologies/NLP/NLP-Bot.py:16-20 | every key ends in a word character; where an earlier key is a proper prefix of a later one, the later key continues with a word character |
| PointOfView.KeyEndsInWordChar | Technologies/NLP/NLP-Bot.py:16-20 | every key is non-empty and ends in a `\w` character |
| PointOfView.PrefixContinues | Technologies/NLP/NLP-Bot.py:16-20 | an earlier key that is a proper prefix of a later key ("your" before "yours") is followed in the later key by a word character |
| PointOfView.MatchIsLongest | Technologies/NLP/NLP-Bot.py:16-21 | the key the alternation picks is at least as long as every key that fits at that position, so multi-word and contracted keys win |
| PointOfView.LongerKeyCannotFit | Technologies/NLP/NLP-Bot.py:16-21 | no key longer than the first fitting key fits at the same position |
| PointOfView.EarlierPrefixCannotFit | Technologies/NLP/NLP-Bot.py:21 | an earlier key that is a prefix of a later key fails its trailing `\b` where the later key occurs |
| PointOfView.PrefixBlocksBoundary | Technologies/NLP/NLP-Bot.py:21 | there is no `\b` between two word characters of an occurring key |
| PointOfView.MatchAtIs | Technologies/NLP/NLP-Bot.py:21 | at a boundary, the first key in table order that fits is the match |
| PointOfView.KeyInitial | Technologies/NLP/NLP-Bot.py:16-20 | every key starts with `I`, `y` or `m` |
| PointOfView.FitStartsAt | Technologies/NLP/NLP-Bot.py:21 | a key that fits at a position starts with the character there |
| PointOfView.NoMatchAtOtherInitial | Technologies/NLP/NLP-Bot.py:21 | no match starts at a character other than `I`, `y` or `m` |
| PointOfView.NoMatchInsideWord | Technologies/NLP/NLP-Bot.py:21 | nothing matches between two word characters |
| PointOfView.CopyOne | Technologies/NLP/NLP-Bot.py:33 | where nothing matches, `re.sub` copies one character and goes on |
| PointOfView.CopyRun | Technologies/NLP/NLP-Bot.py:33 | a stretch with no match is copied as it is |
| PointOfView.ClearRunCopied | Technologies/NLP/NLP-Bot.py:33 | a stretch where no key can start is copied as it is |
| PointOfView.ReplaceAt | Technologies/NLP/NLP-Bot.py:33 | where a key matches, `re.sub` emits its value and goes on after the key, without rescanning the value |
| PointOfView.RewriteIAmHappy | Technologies/NLP/NLP-Bot.py:16-21 | "I am happy" becomes "you are happy", never "you am happy" |
| PointOfView.RewriteYours | Technologies/NLP/NLP-Bot.py:16-21 | "yours" becomes "mine", because the trailing `\b` rejects "your" |
| PointOfView.KeysDistinct | Technologies/NLP/NLP-Bot.py:16-20 | the table's keys are pairwise different |
| PointOfView.EarlierKeyCannotFitAlone | Technologies/NLP/NLP-Bot.py:16-21 | where a key stands alone, no earlier key fits at its start |
| PointOfView.KeyAloneMatches | Technologies/NLP/NLP-Bot.py:16-21 | a key standing alone is matched as itself |
| PointOfView.RewriteKeyAlone | Technologies/NLP/NLP-Bot.py:16-21 | every key standing alone is rewritten to its own value |
| PointOfView.SymmetricRoundTrip | Technologies/NLP/NLP-Bot.py:17-21 | every key except "yours" and "me" is rewritten back to itself by a second rewrite, because its value is a key whose value is the original |
| PointOfView.RewriteYouAreHappy | Technologies/NLP/NLP-Bot.py:16-21 | "you are happy" becomes "I am happy" |
| PointOfView.RoundTripIAmHappy | Technologies/NLP/NLP-Bot.py:16-21 | "I am happy" becomes "you are happy" and then "I am happy" again |
| PointOfView.RoundTripIAm | Technologies/NLP/NLP-Bot.py:17-21 | "I am" is rewritten to "you are" and back to "I am" |
| PointOfView.IAm | Technologies/NLP/NLP-Bot.py:17 | "I am" becomes "you are" |
| PointOfView.YouAre | Technologies/NLP/NLP-Bot.py:18 | "you are" becomes "I am" |
| PointOfView.MeDoesNotRoundTrip | Technologies/NLP/NLP-Bot.py:19-21 | "me" becomes "you" and then "I", never "me" again |
| PointOfView.Me | Technologies/NLP/NLP-Bot.py:19 | "me" becomes "you" |
| PointOfView.You | Technologies/NLP/NLP-Bot.py:19 | "you" becomes "I" |
| PointOfView.RewriteMine | Technologies/NLP/NLP-Bot.py:16-21 | "mine" holds no key, so "yours" -> "mine" has no inverse |
| PointOfView.RewriteYourself | Technologies/NLP/NLP-Bot.py:16-21 | "yourself" is left untouched |
| PointOfView.CaseSensitive | Technologies/NLP/NLP-Bot.py:21 | "You", "My" and "Your" are left as they are, because no IGNORECASE flag is given |
| SentenceTyper.IsRanking | Technologies/NLP/NLP-Bot.py:86-89 | an order of the four labels the Matcher's first match could follow: it names every label |
| SentenceTyper.RegistrationOrder | Technologies/NLP/NLP-Bot.py:71-84 | the order in which `__init__` registers the labels: WH, YN, INSTRUCTION, WISH |
| SentenceTyper.InstructionFirst | Technologies/NLP/NLP-Bot.py:77-79 | an order that puts INSTRUCTION first, used to show that the outcome for "Let them go" depends on the order |
| SentenceTyper.Classify | Technologies/NLP/NLP-Bot.py:86-89 | the label chosen matches, and no label ranked before it matches; None if and only if no ranked label matches |
| SentenceTyper.SelectHandler | Technologies/NLP/NLP-Bot.py:86-99 | each handler is chosen exactly when its label is classified: WH, WISH and INSTRUCTION go to their own handlers; YN goes to the yes/no handler in the diary bot and to the generic handler in the plain bot; no match goes to the generic handler. The WH handler needs a WH tag on token 0 |
| SentenceTyper.Dispatch | Technologies/NLP/NLP-Bot.py:88-99 | the label-to-handler table of `__call__`, the one place where the two bots differ; its properties are stated on `SelectHandler` |
| SentenceTyper.Matches | Technologies/NLP/NLP-Bot.py:71-84 | a label matches when one of the patterns registered under it matches at token 0 |
| SentenceTyper.WhPattern | Technologies/NLP/NLP-Bot.py:71 | token 0 is tagged WDT, WP, WP$ or WRB |
| SentenceTyper.YnPattern1 | Technologies/NLP/NLP-Bot.py:74 | token 0 is tagged MD, and token 1 is a PRON, PROPN or DET |
| SentenceTyper.YnPattern2 | Technologies/NLP/NLP-Bot.py:75 | a VERB, then a PRON, PROPN or DET, then a VERB |
| SentenceTyper.InstructionPattern1 | Technologies/NLP/NLP-Bot.py:78 | token 0 is tagged VB |
| SentenceTyper.InstructionPattern2 | Technologies/NLP/NLP-Bot.py:79 | token 0 lower-cases to "please" or "kindly", and token 1 is tagged VB |
| SentenceTyper.WishPattern1 | Technologies/NLP/NLP-Bot.py:82-83 | a PRP, then an MD, then a VERB whose lemma is love, like or appreciate |
| SentenceTyper.WishPattern2 | Technologies/NLP/NLP-Bot.py:84 | a PRP, then a VERB whose lemma is want, need or require |
| SentenceTyper.ClassifySelects | Technologies/NLP/NLP-Bot.py:86-89 | a label that matches, with no earlier-ranked label matching, is chosen |
| SentenceTyper.RegistrationOrderIsRanking | Technologies/NLP/NLP-Bot.py:71-84 | the order in which `__init__` registers the labels (WH, YN, INSTRUCTION, WISH) names all four labels |
| SentenceTyper.RegistrationOrderOutcome | Technologies/NLP/NLP-Bot.py:71-99 | under the registration order: WH if its pattern matches, else YN, else INSTRUCTION, else WISH, else none |
| SentenceTyper.GenericHandlerIff | Technologies/NLP/NLP-Bot.py:92-99 | the generic handler is chosen exactly when no pattern matches, or in the plain bot when YN is chosen; the yes/no handler exactly when the diary bot chooses YN |
| SentenceTyper.PatternView | Technologies/NLP/NLP-Bot.py:71-84 | the attributes the patterns read cover the first three tokens, or fewer when the sentence is shorter |
| SentenceTyper.ClassifyAgrees | Technologies/NLP/NLP-Bot.py:86-89 | two sentences that match the same labels are classified alike under every ranking |
| SentenceTyper.ClassifyReadsFirstThree | Technologies/NLP/NLP-Bot.py:71-89 | classification depends only on the tag, part of speech, lower-case text and lemma of the first three tokens |
| SentenceTyper.OverlapNeedsUntaggedStart | Technologies/NLP/NLP-Bot.py:71-84 | two labels can match together only through YN pattern 2 or INSTRUCTION pattern 2 |
| SentenceTyper.RankingIrrelevantWhenUnambiguous | Technologies/NLP/NLP-Bot.py:86-89 | when at most one label matches, every ranking gives the same result |
| SentenceTyper.LetThemGo | Technologies/NLP/NLP-Bot.py:75-78 | "Let them go" matches both YN and INSTRUCTION: YN (the generic handler in the plain bot, the yes/no handler in the diary bot) under the registration order, INSTRUCTION when INSTRUCTION ranks first |
| SentenceTyper.PleaseVerbIsInstruction | Technologies/NLP/Diary-Bot.py:65-68 | "please" or "kindly", in any case, followed by a VB verb is an instruction under every ranking, provided token 0 opens no other label's pattern (it is not tagged WDT, WP, WP$, WRB, MD or PRP, and it is not a VERB) |
| SentenceTyper.PleaseCloseTheDoor | Technologies/NLP/Diary-Bot.py:65-68 | the annotated sentence "Please close the door." is an instruction under every ranking |
| VerbFinder.IsRoot | Technologies/NLP/NLP-Bot.py:106 | the one node of the dependency pattern: `{"DEP": "ROOT"}` |
| VerbFinder.FirstRoot | Technologies/NLP/NLP-Bot.py:101-113 | the result is a ROOT position with no ROOT before it; None if and only if there is no ROOT |
| VerbFinder.RootPositions | Technologies/NLP/NLP-Bot.py:108-113 | empty if and only if no token is ROOT; otherwise one position, holding a ROOT token |
| Handlers.Hedges | Technologies/NLP/NLP-Bot.py:34 | the WH reply's opening choices, "I don't know " and "I can't say ", the same in both bots |
| Handlers.Answers | Technologies/NLP/NLP-Bot.py:44 | the yes/no handler's four answers: "Yes.", "No.", "Maybe.", "I'm not sure." |
| Handlers.Acknowledgements | Technologies/NLP/NLP-Bot.py:49 | the wish and instruction replies' opening choices, "Understood: " and "Got it: " |
| Handlers.ValidPicks | Technologies/NLP/NLP-Bot.py:34-55 | each choice index lies within its `random.choice` list |
| Handlers.Deferrals | Technologies/NLP/Diary-Bot.py:29 | each bot has three WH deferral clauses |
| Handlers.Suffixes | Technologies/NLP/Diary-Bot.py:44 | each bot has two instruction closings, the first of them empty |
| Handlers.ChunkTexts | Technologies/NLP/NLP-Bot.py:27 | the list comprehension is non-empty if and only if some chunk has the role; its head is the first such chunk's text; every element is the text of a chunk with the role |
| Handlers.FirstOrNone | Technologies/NLP/NLP-Bot.py:28 | `if part: reply.append(part[0])`: the head of the list if there is one, otherwise nothing |
| Handlers.PredicateText | Technologies/NLP/NLP-Bot.py:30 | `" ".join([sentence[i].text.lower() for i in verbs_idxs])`: the lower-cased predicate tokens, in the order given, one space apart |
| Handlers.WhParts | Technologies/NLP/NLP-Bot.py:25-32 | the list the WH handler builds: the lower-cased first word, the first subject chunk, the predicate, the first object chunk, each absent piece left out |
| Handlers.WhReply | Technologies/NLP/NLP-Bot.py:33-39 | the WH reply before the name prefix: hedge, the rewrite of the space-joined pieces, deferral |
| Handlers.Addressed | Technologies/NLP/Diary-Bot.py:30 | `f"{user_name}, {reply}" if user_name else reply` in the diary bot; the reply as it is in the plain bot |
| Handlers.Respond | Technologies/NLP/NLP-Bot.py:23-60 | what each of the five handlers returns for one sentence, with the diary bot's name prefix; its properties are stated by the lemmas below |
| Handlers.WhQuestionReply | Technologies/NLP/NLP-Bot.py:23-40 | the step-by-step list building gives the WH handler's reply: hedge, rewritten skeleton, deferral, and the name prefix in the diary bot |
| Handlers.WhPartsOmitAbsent | Technologies/NLP/NLP-Bot.py:25-32 | the skeleton starts with the lower-cased first word and has one piece per present constituent; each later piece is the predicate or a subject or object chunk's text |
| Handlers.WhPartsInOrder | Technologies/NLP/NLP-Bot.py:26-32 | the pieces come in the order they are appended: the first subject chunk at position 1, the predicate right after it (or at 1 when there is no subject), the first object chunk last |
| Handlers.YnReplyIgnoresSentence | Technologies/NLP/Diary-Bot.py:32-34 | the yes/no reply is one of "Yes.", "No.", "Maybe.", "I'm not sure.", whatever the sentence says |
| Handlers.GenericReplyUnchangedIff | Technologies/NLP/NLP-Bot.py:58-60 | the plain bot's generic reply equals the sentence exactly when no key stands in it |
| Handlers.AcknowledgedReplies | Technologies/NLP/NLP-Bot.py:47-56 | a wish reply is "Understood: " or "Got it: " then the rewrite; an instruction reply also ends with one of the variant's closings |
| Handlers.DiaryAddressesByName | Technologies/NLP/Diary-Bot.py:30-49 | every diary reply is "<name>, " plus the plain reply when the name is non-empty, and the plain reply when it is None or "" |
| Chat.Header | Technologies/NLP/Diary-Bot.py:125 | what the turn's reply starts with: "" in the plain bot, "[<day>, <time>] " in the diary bot |
| Chat.SentenceReply | Technologies/NLP/NLP-Bot.py:130-131 | the reply to one sentence: its predicate positions, its handler, the handler's output |
| Chat.TurnReply | Technologies/NLP/NLP-Bot.py:127-132 | the printed turn reply: the header, each sentence's reply followed by one space, the whole stripped; proved equal to the loop by `ChatTurn` |
| Chat.Terminated | Technologies/NLP/NLP-Bot.py:128-131 | what `reply += ... + " "` accumulates over the sentences: each reply followed by one space, in sentence order |
| Chat.Replies | Technologies/NLP/NLP-Bot.py:129-131 | there is one reply per sentence |
| Chat.RepliesInOrder | Technologies/NLP/NLP-Bot.py:129-131 | the k-th reply is the k-th sentence's, from that sentence's own picks |
| Chat.RepliesCons | Technologies/NLP/NLP-Bot.py:129-131 | the replies to a non-empty run are the first sentence's reply, then the rest's |
| Chat.RepliesSplit | Technologies/NLP/NLP-Bot.py:129-131 | the replies to two runs of sentences are the replies to each run, concatenated, so no state passes between sentences |
| Chat.AnswerSentence | Technologies/NLP/NLP-Bot.py:130-131 | `verbfinder`, then the handler `sentencetyper` picks, gives the sentence's reply |
| Chat.ChatTurn | Technologies/NLP/NLP-Bot.py:127-132 | the loop's result is the header, then every reply followed by a space, stripped |
| Chat.TurnStep | Technologies/NLP/NLP-Bot.py:131 | one `reply += r + " "` extends the terminated prefix by one reply |
| Chat.TerminatedIsJoinPlusSpace | Technologies/NLP/NLP-Bot.py:131 | replies each followed by a space are their `" ".join` plus one space |
| Chat.NlpTurnJoinsReplies | Technologies/NLP/NLP-Bot.py:127-132 | the plain bot's turn is the replies joined by single spaces, when the first reply does not start and the last does not end with whitespace |
| Chat.CleanRepliesStripped | Technologies/NLP/NLP-Bot.py:132 | stripping the terminated replies leaves their `" ".join` |
| Chat.DiaryTurnStamped | Technologies/NLP/Diary-Bot.py:124-129 | every diary turn reply starts with "[<day>, <time>]", whatever the replies are |
| Chat.StripKeepsStamp | Technologies/NLP/Diary-Bot.py:129 | a leading word with no whitespace at either end survives `strip()` |
| Chat.DiaryTurnJoinsReplies | Technologies/NLP/Diary-Bot.py:124-129 | the diary turn is "[<day>, <time>]", then one space and the replies joined by single spaces, when there are replies and the last does not end with whitespace |
| Chat.StampedStrip | Technologies/NLP/Diary-Bot.py:129 | stripping the stamped, terminated replies leaves the stamp and the joined replies |
| Scenarios.RewriteWhereYouGoing | Technologies/NLP/NLP-Bot.py:33 | "where you going" becomes "where I going" |
| Scenarios.RewritePleaseCloseTheDoor | Technologies/NLP/NLP-Bot.py:53 | "Please close the door." holds no key |
| Scenarios.WhereAreYouGoingIsWh | Technologies/NLP/NLP-Bot.py:71 | "Where are you going?" goes to the WH handler under every ranking |
| Scenarios.WhereAreYouGoingParts | Technologies/NLP/NLP-Bot.py:25-32 | its ROOT is position 3 and its skeleton is "where you going" |
| Scenarios.WhereAreYouGoingReplies | Technologies/NLP/NLP-Bot.py:23-40 | the exact replies of both bots to "Where are you going?" for fixed choices, the diary bot prefixing "Ann, " |
| Scenarios.PleaseCloseTheDoorReplies | Technologies/NLP/Diary-Bot.py:41-45 | the exact replies of both bots to "Please close the door." for fixed choices |

## Left out

- Annotation: tokenisation, tagging, parsing, noun-chunk detection and sentence splitting are done by the spaCy annotator, a foreign library. Its output is the input datatype `Annotation.Sentence`.
- spaCy's Matcher and DependencyMatcher internals are not modelled. The order of their match lists is not visible in the source, so the classifier takes an explicit `rank`, and the predicate finder takes the lowest ROOT position.
- `random.choice` is replaced by the indices in `Handlers.Picks`.
- The interactive loop is not modelled. This covers `input`, `print`, the "exit"/"quit" test, the diary bot's name prompt and greeting, and `datetime.now`/`strftime`. The day, time and name are parameters of `Variant.DiaryBot`.
- `logging.basicConfig` is process configuration and is not modelled.
- Text.IsWordChar: `\w` is modelled on ASCII letters, digits and the underscore. Python's Unicode `\w` also accepts other letters, which changes where `\b` holds next to non-ASCII text.
- Text.Lower: `str.lower()` is modelled on ASCII capitals only. Other characters are kept.
- Chat.Replies: its own contract gives only the number of replies. Their contents are stated by `Chat.RepliesInOrder`.
- Whole-turn replies are worked through for arbitrary sentences by lemmas, not by a concrete multi-sentence example.
