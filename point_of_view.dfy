/**
 * The point-of-view rewrite both bots apply to what the user wrote: the
 * `povs` table compiled into `\b(k0|k1|...)\b` and applied with `re.sub`.
 *
 * The substitution is one left-to-right scan of the ORIGINAL string. At a
 * position where a word boundary holds, the keys are tried in table order
 * (alternation is ordered, and a key whose trailing `\b` fails is abandoned
 * for the next one); the first that fits is replaced by its value and the
 * scan resumes after it. Anywhere else one character is copied. Values are
 * never scanned again, and matching is case-sensitive.
 */
module PointOfView {
  import opened Text

  /** The `povs` table, in its declaration order (which is the alternation order). */
  const Table: seq<(string, string)> := [
    ("I am", "you are"), ("I was", "you were"), ("I'm", "you're"), ("I'd", "you'd"),
    ("I've", "you've"), ("I'll", "you'll"),
    ("you are", "I am"), ("you were", "I was"), ("you're", "I'm"), ("you'd", "I'd"),
    ("you've", "I've"), ("you'll", "I'll"),
    ("I", "you"), ("my", "your"), ("your", "my"), ("yours", "mine"), ("you", "I"), ("me", "you")
  ]

  function Key(k: nat): string
    requires k < |Table|
  {
    Table[k].0
  }

  function Value(k: nat): string
    requires k < |Table|
  {
    Table[k].1
  }

  /** `\b` at position `i` of `s`: a word character on exactly one side of `i`. */
  predicate Boundary(s: string, i: nat)
    requires i <= |s|
  {
    (i > 0 && IsWordChar(s[i - 1])) != (i < |s| && IsWordChar(s[i]))
  }

  /** Key `k` occurs at position `i` of `s` and is followed by a word boundary. */
  predicate KeyFitsAt(s: string, i: nat, k: nat)
    requires i <= |s| && k < |Table|
  {
    i + |Key(k)| <= |s| && s[i..i + |Key(k)|] == Key(k) && Boundary(s, i + |Key(k)|)
  }

  /** The first key, from index `from` on, that fits at position `i`. */
  function FirstFit(s: string, i: nat, from: nat): (r: Option<nat>)
    requires i <= |s| && from <= |Table|
    ensures r.Some? ==> from <= r.value < |Table| && KeyFitsAt(s, i, r.value)
    ensures r.Some? ==> forall k :: from <= k < r.value ==> !KeyFitsAt(s, i, k)
    ensures r.None? ==> forall k :: from <= k < |Table| ==> !KeyFitsAt(s, i, k)
    decreases |Table| - from
  {
    if from == |Table| then None
    else if KeyFitsAt(s, i, from) then Some(from)
    else FirstFit(s, i, from + 1)
  }

  /** The table entry the compiled pattern matches at position `i`, if any. */
  function MatchAt(s: string, i: nat): (r: Option<nat>)
    requires i <= |s|
    ensures r.Some? ==> r.value < |Table| && Boundary(s, i) && KeyFitsAt(s, i, r.value)
    ensures r.Some? ==> forall k :: 0 <= k < r.value ==> !KeyFitsAt(s, i, k)
    ensures r.None? <==> !Boundary(s, i) || forall k :: 0 <= k < |Table| ==> !KeyFitsAt(s, i, k)
  {
    if Boundary(s, i) then FirstFit(s, i, 0) else None
  }

  /** `re.sub(povs_c, ...)` on `s[i..]`, with boundaries judged on the whole of `s`. */
  function RewriteFrom(s: string, i: nat): string
    requires i <= |s|
    decreases |s| - i
  {
    if i == |s| then ""
    else match MatchAt(s, i)
      case Some(k) => Value(k) + RewriteFrom(s, i + |Key(k)|)
      case None => [s[i]] + RewriteFrom(s, i + 1)
  }

  /** The point-of-view rewrite of a whole string. */
  function Rewrite(s: string): string
  {
    RewriteFrom(s, 0)
  }

  /** No table key stands between word boundaries anywhere in `s`. */
  predicate NoKey(s: string)
  {
    forall i :: 0 <= i < |s| ==> MatchAt(s, i).None?
  }

  /** Every replacement differs from the key it replaces in its first character. */
  lemma ValueDiffersFromKey(k: nat)
    requires k < |Table|
    ensures |Key(k)| > 0 && |Value(k)| > 0 && Value(k)[0] != Key(k)[0]
  {
  }

  lemma RewriteFromUnchanged(s: string, i: nat)
    requires i <= |s|
    ensures RewriteFrom(s, i) == s[i..] <==> forall p :: i <= p < |s| ==> MatchAt(s, p).None?
  {
    if forall p :: i <= p < |s| ==> MatchAt(s, p).None? {
      CopyRun(s, i, |s|);
    } else if RewriteFrom(s, i) == s[i..] {
      forall p | i <= p < |s| ensures MatchAt(s, p).None? {
        UnchangedHasNoMatch(s, i, p);
      }
    }
  }

  /** A suffix the rewrite leaves as it is has no match anywhere. */
  lemma {:induction false} UnchangedHasNoMatch(s: string, i: nat, p: nat)
    requires i <= p < |s| && RewriteFrom(s, i) == s[i..]
    ensures MatchAt(s, p).None?
    decreases p - i
  {
    if MatchAt(s, i).Some? {
      ReplacedDiffers(s, i);
    } else if i < p {
      CopyOne(s, i);
      assert s[i..] == [s[i]] + s[i + 1..];
      UnchangedHasNoMatch(s, i + 1, p);
    }
  }

  /** Where a key matches, the rewrite of the rest differs from the rest in its first character. */
  lemma ReplacedDiffers(s: string, i: nat)
    requires i < |s| && MatchAt(s, i).Some?
    ensures |RewriteFrom(s, i)| > 0 && RewriteFrom(s, i)[0] != s[i]
    ensures RewriteFrom(s, i) != s[i..]
  {
    var k := MatchAt(s, i).value;
    ValueDiffersFromKey(k);
    ReplaceAt(s, i);
    assert s[i..][0] == Key(k)[0];
    assert RewriteFrom(s, i)[0] == Value(k)[0];
  }

  /** The rewrite leaves `s` as it is exactly when no key stands between word boundaries in it. */
  lemma RewriteUnchangedIff(s: string)
    ensures Rewrite(s) == s <==> NoKey(s)
  {
    RewriteFromUnchanged(s, 0);
  }

  /** Key `a` is a proper prefix of key `b`. */
  predicate ProperPrefixKey(a: nat, b: nat)
    requires a < |Table| && b < |Table|
  {
    |Key(a)| < |Key(b)| && Key(b)[..|Key(a)|] == Key(a)
  }

  lemma KeyIndex(k: nat)
    requires k < |Table|
    ensures k == 0 || k == 1 || k == 2 || k == 3 || k == 4 || k == 5 || k == 6 || k == 7 || k == 8
         || k == 9 || k == 10 || k == 11 || k == 12 || k == 13 || k == 14 || k == 15 || k == 16 || k == 17
  {
  }

  /**
   * The table is ordered so that the alternation never needs length to decide:
   * every key ends in a word character, and where an earlier key is a proper
   * prefix of a later one (only "your" before "yours"), the later key continues
   * with a word character, so the earlier one's trailing `\b` fails there.
   */
  lemma TableOrder(a: nat, b: nat)
    requires a < b < |Table|
    ensures |Key(a)| > 0 && IsWordChar(Key(a)[|Key(a)| - 1])
    ensures ProperPrefixKey(a, b) ==> IsWordChar(Key(b)[|Key(a)|])
  {
    KeyEndsInWordChar(a);
    PrefixContinues(a, b);
  }

  lemma KeyEndsInWordChar(k: nat)
    requires k < |Table|
    ensures |Key(k)| > 0 && IsWordChar(Key(k)[|Key(k)| - 1])
  {
    KeyIndex(k);
  }

  lemma PrefixContinues(a: nat, b: nat)
    requires a < b < |Table|
    ensures ProperPrefixKey(a, b) ==> IsWordChar(Key(b)[|Key(a)|])
  {
    if ProperPrefixKey(a, b) {
      var n := |Key(a)|;
      assert Key(a)[0] == Key(b)[0] && Key(a)[n - 1] == Key(b)[n - 1];
      assert n > 2 ==> Key(a)[2] == Key(b)[2];
      assert n > 3 ==> Key(a)[3] == Key(b)[3];
      KeyIndex(a);
      KeyIndex(b);
    }
  }

  /**
   * Ordered alternation picks the longest key that fits: a multi-word or
   * contracted key is never cut short by the single word it starts with.
   */
  lemma MatchIsLongest(s: string, i: nat, m: nat)
    requires i <= |s| && MatchAt(s, i).Some?
    requires m < |Table| && KeyFitsAt(s, i, m)
    ensures |Key(m)| <= |Key(MatchAt(s, i).value)|
  {
    var k := MatchAt(s, i).value;
    LongerKeyCannotFit(s, i, k, m);
  }

  /** If the first key that fits is shorter than another fitting key, the other comes later and extends it: impossible by the table's order. */
  lemma LongerKeyCannotFit(s: string, i: nat, k: nat, m: nat)
    requires i <= |s| && k < |Table| && m < |Table| && KeyFitsAt(s, i, k) && KeyFitsAt(s, i, m)
    requires m < k ==> !KeyFitsAt(s, i, m)
    ensures |Key(m)| <= |Key(k)|
  {
    if |Key(m)| > |Key(k)| {
      SameStart(s, i, Key(k), Key(m));
      EarlierPrefixCannotFit(s, i, k, m);
    }
  }

  /** Two strings that both occur at position `i` of `s`: the shorter is a prefix of the longer. */
  lemma SameStart(s: string, i: nat, a: string, b: string)
    requires i + |b| <= |s| && s[i..i + |b|] == b && i + |a| <= |s| && s[i..i + |a|] == a && |a| < |b|
    ensures b[..|a|] == a
  {
    assert s[i..i + |b|][..|a|] == s[i..i + |a|];
  }

  /** An earlier key that is a proper prefix of a later one cannot fit where the later one occurs. */
  lemma EarlierPrefixCannotFit(s: string, i: nat, k: nat, m: nat)
    requires i <= |s| && k < m < |Table| && ProperPrefixKey(k, m) && KeyFitsAt(s, i, m)
    ensures !KeyFitsAt(s, i, k)
  {
    TableOrder(k, m);
    PrefixBlocksBoundary(s, i, Key(k), Key(m));
  }

  /** Where a word-final prefix of `b` stops inside a word character of `b`, there is no boundary. */
  lemma PrefixBlocksBoundary(s: string, i: nat, a: string, b: string)
    requires i + |b| <= |s| && s[i..i + |b|] == b
    requires 0 < |a| < |b| && b[..|a|] == a
    requires IsWordChar(a[|a| - 1]) && IsWordChar(b[|a|])
    ensures !Boundary(s, i + |a|)
  {
    assert s[i + |a| - 1] == b[|a| - 1] == a[|a| - 1];
    assert s[i + |a|] == b[|a|];
  }

  /** The alternation's choice at `i` is fixed by the first key that fits there. */
  lemma MatchAtIs(s: string, i: nat, k: nat)
    requires i <= |s| && k < |Table| && Boundary(s, i) && KeyFitsAt(s, i, k)
    requires forall j :: 0 <= j < k ==> !KeyFitsAt(s, i, j)
    ensures MatchAt(s, i) == Some(k)
  {
  }

  /** Every key starts with `I`, `y` or `m`. */
  lemma KeyInitial(k: nat)
    requires k < |Table|
    ensures |Key(k)| > 0 && (Key(k)[0] == 'I' || Key(k)[0] == 'y' || Key(k)[0] == 'm')
  {
    KeyIndex(k);
  }

  /** A key that fits at `i` starts with `s[i]`. */
  lemma FitStartsAt(s: string, i: nat, k: nat)
    requires i <= |s| && k < |Table|
    ensures KeyFitsAt(s, i, k) ==> i < |s| && s[i] == Key(k)[0]
  {
    KeyInitial(k);
    if KeyFitsAt(s, i, k) {
      assert s[i..i + |Key(k)|][0] == s[i];
    }
  }

  /** No character other than a key's initial can begin a match. */
  lemma NoMatchAtOtherInitial(s: string, i: nat)
    requires i < |s| && s[i] != 'I' && s[i] != 'y' && s[i] != 'm'
    ensures MatchAt(s, i).None?
  {
    forall k | 0 <= k < |Table| ensures !KeyFitsAt(s, i, k) {
      FitStartsAt(s, i, k);
      KeyInitial(k);
    }
  }

  /** Inside a word there is no boundary, so nothing matches. */
  lemma NoMatchInsideWord(s: string, i: nat)
    requires 0 < i < |s| && IsWordChar(s[i - 1]) && IsWordChar(s[i])
    ensures MatchAt(s, i).None?
  {
  }

  lemma CopyOne(s: string, i: nat)
    requires i < |s| && MatchAt(s, i).None?
    ensures RewriteFrom(s, i) == [s[i]] + RewriteFrom(s, i + 1)
  {
  }

  /** A stretch with no match anywhere is copied as it is. */
  lemma {:induction false} CopyRun(s: string, i: nat, j: nat)
    requires i <= j <= |s|
    requires forall p :: i <= p < j ==> MatchAt(s, p).None?
    ensures RewriteFrom(s, i) == s[i..j] + RewriteFrom(s, j)
    decreases j - i
  {
    if i < j {
      calc {
        RewriteFrom(s, i);
        { CopyOne(s, i); }
        [s[i]] + RewriteFrom(s, i + 1);
        { CopyRun(s, i + 1, j); }
        [s[i]] + (s[i + 1..j] + RewriteFrom(s, j));
        { assert s[i..j] == [s[i]] + s[i + 1..j]; }
        s[i..j] + RewriteFrom(s, j);
      }
    }
  }

  /**
   * No position of `s[i..j]` both stands on a word boundary and holds a
   * key's first letter ('I', 'y' or 'm'); decidable position by position.
   */
  predicate NoKeyStartIn(s: string, i: nat, j: nat)
    requires i <= j <= |s|
    decreases j - i
  {
    i == j || ((!Boundary(s, i) || (s[i] != 'I' && s[i] != 'y' && s[i] != 'm')) && NoKeyStartIn(s, i + 1, j))
  }

  lemma {:induction false} NoKeyStartInJoin(s: string, i: nat, k: nat, j: nat)
    requires i <= k <= j <= |s| && NoKeyStartIn(s, i, k) && NoKeyStartIn(s, k, j)
    ensures NoKeyStartIn(s, i, j)
    decreases k - i
  {
    if i < k {
      NoKeyStartInJoin(s, i + 1, k, j);
    }
  }

  /** A stretch where no key can start is copied as it is. */
  lemma {:induction false} ClearRunCopied(s: string, i: nat, j: nat)
    requires i <= j <= |s| && NoKeyStartIn(s, i, j)
    ensures RewriteFrom(s, i) == s[i..j] + RewriteFrom(s, j)
    decreases j - i
  {
    if i < j {
      assert MatchAt(s, i).None? by {
        if s[i] != 'I' && s[i] != 'y' && s[i] != 'm' {
          NoMatchAtOtherInitial(s, i);
        }
      }
      calc {
        RewriteFrom(s, i);
        { CopyOne(s, i); }
        [s[i]] + RewriteFrom(s, i + 1);
        { ClearRunCopied(s, i + 1, j); }
        [s[i]] + (s[i + 1..j] + RewriteFrom(s, j));
        { assert s[i..j] == [s[i]] + s[i + 1..j]; }
        s[i..j] + RewriteFrom(s, j);
      }
    }
  }

  /** Where a key matches, the rewrite is its value followed by the rewrite of what comes after the key. */
  lemma ReplaceAt(s: string, i: nat)
    requires i < |s| && MatchAt(s, i).Some?
    ensures RewriteFrom(s, i) == Value(MatchAt(s, i).value) + RewriteFrom(s, i + |Key(MatchAt(s, i).value)|)
  {
  }

  lemma IAmAtStart(s: string)
    requires s == "I am happy"
    ensures RewriteFrom(s, 0) == "you are" + RewriteFrom(s, 4)
  {
    MatchAtIs(s, 0, 0);
    ReplaceAt(s, 0);
  }

  lemma HappyCopied(s: string, i: nat)
    requires i + 6 == |s| && s[i..] == " happy"
    ensures RewriteFrom(s, i) == " happy"
  {
    assert s[i] == ' ' && s[i + 1] == 'h';
    NoMatchAtOtherInitial(s, i);
    NoMatchAtOtherInitial(s, i + 1);
    forall p | i + 2 <= p < |s| ensures MatchAt(s, p).None? {
      assert s[p] == s[i..][p - i];
      NoMatchInsideWord(s, p);
    }
    CopyRun(s, i, |s|);
  }

  /** "I am happy" becomes "you are happy", never "you am happy": the two-word key wins over "I". */
  lemma RewriteIAmHappy(s: string)
    requires s == "I am happy"
    ensures Rewrite(s) == "you are happy"
  {
    calc {
      Rewrite(s);
      { IAmAtStart(s); }
      "you are" + RewriteFrom(s, 4);
      { assert s[4..] == " happy"; HappyCopied(s, 4); }
      "you are" + " happy";
      { YouAreHappySpelled(); }
      "you are happy";
    }
  }

  lemma YouAreHappySpelled()
    ensures "you are" + " happy" == "you are happy"
  {
    var x := "you are" + " happy";
    forall i | 0 <= i < |x| ensures x[i] == "you are happy"[i] {}
  }

  /** The keys are pairwise different. */
  lemma KeysDistinct(j: nat, k: nat)
    requires j < k < |Table|
    ensures Key(j) != Key(k)
  {
    KeyIndex(j);
    KeyIndex(k);
  }

  /** Where a key stands alone, no earlier key fits at its start. */
  lemma EarlierKeyCannotFitAlone(k: nat, j: nat)
    requires j < k < |Table|
    ensures !KeyFitsAt(Key(k), 0, j)
  {
    var s := Key(k);
    var n := |Key(j)|;
    if n == |s| {
      KeysDistinct(j, k);
      assert s[0..n] == s;
    } else if n < |s| && s[0..n] == Key(j) {
      KeyInitial(k);
      KeyEndsInWordChar(k);
      assert s[0..|s|] == s;
      assert KeyFitsAt(s, 0, k);
      assert ProperPrefixKey(j, k) by { assert s[..n] == s[0..n]; }
      EarlierPrefixCannotFit(s, 0, j, k);
    }
  }

  /** A key standing alone is matched as itself. */
  lemma KeyAloneMatches(k: nat)
    requires k < |Table|
    ensures MatchAt(Key(k), 0) == Some(k)
  {
    var s := Key(k);
    KeyInitial(k);
    KeyEndsInWordChar(k);
    assert s[0..|s|] == s;
    forall j | 0 <= j < k ensures !KeyFitsAt(s, 0, j) {
      EarlierKeyCannotFitAlone(k, j);
    }
    MatchAtIs(s, 0, k);
  }

  /** Every key standing alone is rewritten to its value. */
  lemma RewriteKeyAlone(k: nat)
    requires k < |Table|
    ensures Rewrite(Key(k)) == Value(k)
  {
    var s := Key(k);
    KeyAloneMatches(k);
    ReplaceAt(s, 0);
    assert Value(k) + RewriteFrom(s, |s|) == Value(k);
  }

  /**
   * Every key but "yours" and "me" has a partner whose value is the key
   * itself, so rewriting it twice gives it back: the rewrite's output is
   * never rescanned.
   */
  lemma SymmetricRoundTrip(k: nat)
    requires k < 15 || k == 16
    ensures Rewrite(Rewrite(Key(k))) == Key(k)
  {
    var p := if k < 6 then k + 6 else if k < 12 then k - 6 else if k == 12 then 16
             else if k == 13 then 14 else if k == 14 then 13 else 12;
    assert Value(k) == Key(p) && Value(p) == Key(k) by { KeyIndex(k); }
    RewriteKeyAlone(k);
    RewriteKeyAlone(p);
  }

  lemma YouAreAtStart(s: string)
    requires s == "you are happy"
    ensures RewriteFrom(s, 0) == "I am" + RewriteFrom(s, 7)
  {
    forall j | 0 <= j < 6 ensures !KeyFitsAt(s, 0, j) { FitStartsAt(s, 0, j); KeyIndex(j); }
    MatchAtIs(s, 0, 6);
    ReplaceAt(s, 0);
  }

  lemma IAmHappySpelled()
    ensures "I am" + " happy" == "I am happy"
  {
    var x := "I am" + " happy";
    forall i | 0 <= i < |x| ensures x[i] == "I am happy"[i] {}
  }

  /** "you are happy" becomes "I am happy". */
  lemma RewriteYouAreHappy(s: string)
    requires s == "you are happy"
    ensures Rewrite(s) == "I am happy"
  {
    calc {
      Rewrite(s);
      { YouAreAtStart(s); }
      "I am" + RewriteFrom(s, 7);
      { assert s[7..] == " happy"; HappyCopied(s, 7); }
      "I am" + " happy";
      { IAmHappySpelled(); }
      "I am happy";
    }
  }

  /** A sentence round-trips as well: "I am happy" -> "you are happy" -> "I am happy". */
  lemma RoundTripIAmHappy(s: string)
    requires s == "I am happy"
    ensures Rewrite(Rewrite(s)) == s
  {
    RewriteIAmHappy(s);
    RewriteYouAreHappy(Rewrite(s));
  }

  lemma IAm(s: string)
    requires s == "I am"
    ensures Rewrite(s) == "you are"
  {
    MatchAtIs(s, 0, 0);
    ReplaceAt(s, 0);
  }

  lemma YouAre(s: string)
    requires s == "you are"
    ensures Rewrite(s) == "I am"
  {
    forall j | 0 <= j < 6 ensures !KeyFitsAt(s, 0, j) { FitStartsAt(s, 0, j); KeyIndex(j); }
    MatchAtIs(s, 0, 6);
    ReplaceAt(s, 0);
  }

  /** A symmetric pair round-trips: "I am" -> "you are" -> "I am". */
  lemma RoundTripIAm(s: string)
    requires s == "I am"
    ensures Rewrite(Rewrite(s)) == s
  {
    IAm(s);
    YouAre(Rewrite(s));
  }

  /** At "yours" the trailing boundary rejects "your", so "yours" becomes "mine". */
  lemma RewriteYours(s: string)
    requires s == "yours"
    ensures Rewrite(s) == "mine"
  {
    forall j | 0 <= j < 15 ensures !KeyFitsAt(s, 0, j) { FitStartsAt(s, 0, j); KeyIndex(j); }
    MatchAtIs(s, 0, 15);
    ReplaceAt(s, 0);
  }

  /** "mine" holds no key, so "yours" -> "mine" has no way back. */
  lemma RewriteMine(s: string)
    requires s == "mine"
    ensures Rewrite(s) == s
  {
    forall j | 0 <= j < |Table| ensures !KeyFitsAt(s, 0, j) { KeyIndex(j); }
    forall p | 1 <= p < 4 ensures MatchAt(s, p).None? { NoMatchInsideWord(s, p); }
    CopyRun(s, 0, 4);
  }

  lemma Me(s: string)
    requires s == "me"
    ensures Rewrite(s) == "you"
  {
    forall j | 0 <= j < 17 ensures !KeyFitsAt(s, 0, j) { FitStartsAt(s, 0, j); KeyIndex(j); }
    MatchAtIs(s, 0, 17);
    ReplaceAt(s, 0);
  }

  lemma You(s: string)
    requires s == "you"
    ensures Rewrite(s) == "I"
  {
    forall j | 0 <= j < 16 ensures !KeyFitsAt(s, 0, j) { FitStartsAt(s, 0, j); KeyIndex(j); }
    MatchAtIs(s, 0, 16);
    ReplaceAt(s, 0);
  }

  /** "me" -> "you" -> "I": the one-directional entry does not round-trip. */
  lemma MeDoesNotRoundTrip(s: string)
    requires s == "me"
    ensures Rewrite(Rewrite(s)) == "I" != s
  {
    Me(s);
    You(Rewrite(s));
  }

  /** "yourself" holds "your" and "you" only inside a word, so it is left alone. */
  lemma RewriteYourself(s: string)
    requires s == "yourself"
    ensures Rewrite(s) == s
  {
    forall j | 0 <= j < |Table| ensures !KeyFitsAt(s, 0, j) { KeyIndex(j); }
    forall p | 1 <= p < 8 ensures MatchAt(s, p).None? { NoMatchInsideWord(s, p); }
    CopyRun(s, 0, 8);
  }

  /** Matching is case-sensitive: a capitalised "You", "My" or "Your" is no key. */
  lemma CaseSensitive(s: string)
    requires s == "You" || s == "My" || s == "Your"
    ensures Rewrite(s) == s
  {
    NoMatchAtOtherInitial(s, 0);
    forall p | 1 <= p < |s| ensures MatchAt(s, p).None? { NoMatchInsideWord(s, p); }
    CopyRun(s, 0, |s|);
  }
}
