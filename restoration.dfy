/** The token-level restoration algorithm of the restorer
    (`restore_diacritics_tokens` in fast_redi.py).

    A lexicon maps a lower-case token to its candidate restored forms with
    their weights. Python keeps the candidates in a dictionary, whose
    iteration order is insertion order; here they are a sequence in that
    order. A dictionary holds each form once; the model does not need
    that, and where forms repeat it still picks the first maximal one.
    Weights and scores are integers: the source
    maximises `0.8 * lm + 0.2 * tm` over floats, and the model maximises
    `4 * lm + 1 * tm`, which is the same quantity times 5 and so has the
    same maximising candidates. */
module Restoration {
  import opened Wrappers
  import opened Errors
  import opened Text
  import opened CaseMap

  datatype Candidate = Candidate(form: string, weight: int)

  type Lexicon = map<string, seq<Candidate>>

  /** The language model's `score(sentence)`; higher is better. */
  type Scorer = string -> int

  /** `LM_LAMBDA` (0.8) and `TM_LAMBDA` (0.2), both times 5. */
  const LM_LAMBDA: int := 4
  const TM_LAMBDA: int := 1

  function Combined(lmScore: int, tmWeight: int): int {
    LM_LAMBDA * lmScore + TM_LAMBDA * tmWeight
  }

  /** The position of the first maximal element: what Python's `max` over a
      dictionary returns, and the head of a stable `sorted` by descending key. */
  function FirstMaxIndex(ws: seq<int>): (k: nat)
    requires |ws| > 0
    ensures k < |ws|
    ensures forall j :: 0 <= j < |ws| ==> ws[j] <= ws[k]
    ensures forall j :: 0 <= j < k ==> ws[j] < ws[k]
  {
    if |ws| == 1 then 0
    else
      var k := FirstMaxIndex(ws[..|ws| - 1]);
      if ws[|ws| - 1] > ws[k] then |ws| - 1 else k
  }

  function Weights(cands: seq<Candidate>): (ws: seq<int>)
    ensures |ws| == |cands|
    ensures forall j :: 0 <= j < |cands| ==> ws[j] == cands[j].weight
  {
    seq(|cands|, j requires 0 <= j < |cands| => cands[j].weight)
  }

  /** `[t.lower() for t in token_list]`. */
  function LowerAll(ts: seq<string>): (low: seq<string>)
    ensures |low| == |ts|
    ensures forall i :: 0 <= i < |ts| ==> low[i] == LowerString(ts[i])
  {
    seq(|ts|, i requires 0 <= i < |ts| => LowerString(ts[i]))
  }

  /** A token whose lexicon entry does not have exactly one candidate. */
  predicate Ambiguous(lex: Lexicon, t: string) {
    t in lex && |lex[t]| != 1
  }

  /** No looked-up token has an empty candidate dictionary. */
  predicate NoEmptyEntry(lex: Lexicon, low: seq<string>) {
    forall i :: 0 <= i < |low| && low[i] in lex ==> |lex[low[i]]| > 0
  }

  /** `cands[k]` has the largest weight, and no earlier candidate has it. */
  predicate HeaviestCandidate(cands: seq<Candidate>, k: int) {
    && 0 <= k < |cands|
    && (forall j :: 0 <= j < |cands| ==> cands[j].weight <= cands[k].weight)
    && (forall j :: 0 <= j < k ==> cands[j].weight < cands[k].weight)
  }

  /** The first loop for one lower-cased token `t`: leave an unknown token
      alone, take a single candidate, and without a scorer take the
      heaviest candidate. Ambiguous tokens wait for the scorer when there is
      one (and an empty entry is left for the caller to reject). */
  function LookupToken(lex: Lexicon, t: string, scored: bool): (r: string)
    ensures t !in lex ==> r == t
    ensures t in lex && |lex[t]| == 1 ==> r == lex[t][0].form
    ensures Ambiguous(lex, t) && scored ==> r == t
    ensures Ambiguous(lex, t) && !scored && |lex[t]| > 0 ==>
      exists k :: HeaviestCandidate(lex[t], k) && r == lex[t][k].form
  {
    if t !in lex then t
    else if |lex[t]| == 1 then lex[t][0].form
    else if scored || |lex[t]| == 0 then t
    else
      var k := FirstMaxIndex(Weights(lex[t]));
      assert HeaviestCandidate(lex[t], k);
      lex[t][k].form
  }

  function LookupAll(lex: Lexicon, low: seq<string>, scored: bool): (tl: seq<string>)
    ensures |tl| == |low|
    ensures forall i :: 0 <= i < |low| ==> tl[i] == LookupToken(lex, low[i], scored)
  {
    seq(|low|, i requires 0 <= i < |low| => LookupToken(lex, low[i], scored))
  }

  /** The combined score of putting hypothesis `h` between `before` and
      `after`: `' '.join(before + [h] + after)` is scored by the language
      model, and the candidate's lexicon weight is added. */
  function HypothesisScore(score: Scorer, before: seq<string>, h: Candidate, after: seq<string>): int {
    Combined(score(Join(before + [h.form] + after, " ")), h.weight)
  }

  function HypothesisScores(score: Scorer, cands: seq<Candidate>, tl: seq<string>, i: nat): (ss: seq<int>)
    requires i < |tl|
    ensures |ss| == |cands|
    ensures forall j :: 0 <= j < |cands| ==> ss[j] == HypothesisScore(score, tl[..i], cands[j], tl[i + 1..])
  {
    seq(|cands|, j requires 0 <= j < |cands| => HypothesisScore(score, tl[..i], cands[j], tl[i + 1..]))
  }

  /** `cands[k]` maximises the combined score in its context, and no earlier
      candidate reaches that score. */
  predicate BestHypothesis(score: Scorer, cands: seq<Candidate>, k: int, before: seq<string>, after: seq<string>) {
    && 0 <= k < |cands|
    && (forall j :: 0 <= j < |cands| ==>
          HypothesisScore(score, before, cands[j], after) <= HypothesisScore(score, before, cands[k], after))
    && (forall j :: 0 <= j < k ==>
          HypothesisScore(score, before, cands[j], after) < HypothesisScore(score, before, cands[k], after))
  }

  /** The second loop after the ambiguous positions below `n` have been
      rescored, in increasing order, each in the sentence as it stands. */
  function Rescore(lex: Lexicon, low: seq<string>, score: Scorer, n: nat): (tl: seq<string>)
    requires n <= |low|
    ensures |tl| == |low|
    decreases n
  {
    if n == 0 then LookupAll(lex, low, true)
    else
      var tl := Rescore(lex, low, score, n - 1);
      var t := low[n - 1];
      if Ambiguous(lex, t) && |lex[t]| > 0 then
        var cands := lex[t];
        tl[n - 1 := cands[FirstMaxIndex(HypothesisScores(score, cands, tl, n - 1))].form]
      else tl
  }

  /** The restored tokens before their case is put back. */
  function RestoredLower(lex: Lexicon, ts: seq<string>, lm: Option<Scorer>): Result<seq<string>, Error> {
    var low := LowerAll(ts);
    if !NoEmptyEntry(lex, low) then Failure(NoCandidates)
    else match lm
      case None => Success(LookupAll(lex, low, false))
      case Some(score) => Success(Rescore(lex, low, score, |low|))
  }

  /** What `restore_diacritics_tokens` returns for a loaded lexicon: it fails
      exactly when a token's entry has no candidate, and otherwise gives one
      token per input token. */
  function RestoreTokens(lex: Lexicon, ts: seq<string>, lm: Option<Scorer>): (r: Result<seq<string>, Error>)
    ensures r.Failure? <==> exists i :: 0 <= i < |ts| && LowerString(ts[i]) in lex && |lex[LowerString(ts[i])]| == 0
    ensures r.Failure? ==> r.error == NoCandidates
    ensures r.Success? ==> |r.value| == |ts|
  {
    match RestoredLower(lex, ts, lm)
    case Failure(e) => Failure(e)
    case Success(tl) =>
      assert |tl| == |ts| by {
        if lm.Some? {
        }
      }
      Success(seq(|ts|, i requires 0 <= i < |ts| => ApplyCase(UpperPositions(ts[i]), tl[i])))
  }

  // -----------------------------------------------------------------------
  // How the second loop evolves.
  // -----------------------------------------------------------------------

  /** Positions at or after `n` are still as the first loop left them. */
  lemma {:induction false} RescoreAhead(lex: Lexicon, low: seq<string>, score: Scorer, n: nat, i: nat)
    requires n <= i < |low|
    ensures Rescore(lex, low, score, n)[i] == LookupToken(lex, low[i], true)
    decreases n
  {
    if n > 0 {
      RescoreAhead(lex, low, score, n - 1, i);
    }
  }

  /** A position below `n` is not changed by later steps. */
  lemma {:induction false} RescoreSettled(lex: Lexicon, low: seq<string>, score: Scorer, n: nat, m: nat, i: nat)
    requires i < n <= m <= |low|
    ensures Rescore(lex, low, score, m)[i] == Rescore(lex, low, score, n)[i]
    decreases m
  {
    if m > n {
      RescoreSettled(lex, low, score, n, m - 1, i);
    }
  }

  /** A position that is not ambiguous is never rescored. */
  lemma {:induction false} RescoreUnambiguous(lex: Lexicon, low: seq<string>, score: Scorer, n: nat, i: nat)
    requires n <= |low| && i < |low| && !Ambiguous(lex, low[i])
    ensures Rescore(lex, low, score, n)[i] == LookupToken(lex, low[i], true)
    decreases n
  {
    if n > 0 {
      RescoreUnambiguous(lex, low, score, n - 1, i);
    }
  }

  /** Steps over positions that are not ambiguous change nothing. */
  lemma {:induction false} RescoreSkip(lex: Lexicon, low: seq<string>, score: Scorer, n: nat, m: nat)
    requires n <= m <= |low|
    requires forall j :: n <= j < m ==> !Ambiguous(lex, low[j])
    ensures Rescore(lex, low, score, m) == Rescore(lex, low, score, n)
    decreases m
  {
    if m > n {
      RescoreSkip(lex, low, score, n, m - 1);
    }
  }

  // -----------------------------------------------------------------------
  // What restoration promises, token by token.
  // -----------------------------------------------------------------------

  /** The restored token at `i` before its case is put back is the first
      loop's choice for every unambiguous token. */
  lemma RestoredLowerUnambiguous(lex: Lexicon, ts: seq<string>, lm: Option<Scorer>, i: nat)
    requires i < |ts| && RestoredLower(lex, ts, lm).Success?
    requires !Ambiguous(lex, LowerString(ts[i])) || lm.None?
    ensures |RestoredLower(lex, ts, lm).value| == |ts|
    ensures RestoredLower(lex, ts, lm).value[i] == LookupToken(lex, LowerString(ts[i]), lm.Some?)
  {
    var low := LowerAll(ts);
    if lm.Some? {
      RescoreUnambiguous(lex, low, lm.value, |low|, i);
    }
  }

  /** A token that is not in the lexicon comes back exactly as it was. */
  lemma RestoreUnknownToken(lex: Lexicon, ts: seq<string>, lm: Option<Scorer>, i: nat)
    requires i < |ts| && LowerString(ts[i]) !in lex
    requires RestoreTokens(lex, ts, lm).Success?
    ensures RestoreTokens(lex, ts, lm).value[i] == ts[i]
  {
    RestoredLowerUnambiguous(lex, ts, lm, i);
    CaseRoundTrip(ts[i]);
  }

  /** A token with a single candidate becomes that candidate, with the
      token's upper-case positions put back. */
  lemma RestoreSingleCandidate(lex: Lexicon, ts: seq<string>, lm: Option<Scorer>, i: nat)
    requires i < |ts| && LowerString(ts[i]) in lex && |lex[LowerString(ts[i])]| == 1
    requires RestoreTokens(lex, ts, lm).Success?
    ensures RestoreTokens(lex, ts, lm).value[i]
         == ApplyCase(UpperPositions(ts[i]), lex[LowerString(ts[i])][0].form)
  {
    RestoredLowerUnambiguous(lex, ts, lm, i);
  }

  /** Without a scorer, a token with several candidates becomes the first
      of its heaviest candidates, with its upper-case positions put back. */
  lemma RestoreHeaviestCandidate(lex: Lexicon, ts: seq<string>, i: nat)
    requires i < |ts| && Ambiguous(lex, LowerString(ts[i]))
    requires RestoreTokens(lex, ts, None).Success?
    ensures exists k :: (HeaviestCandidate(lex[LowerString(ts[i])], k)
      && RestoreTokens(lex, ts, None).value[i] == ApplyCase(UpperPositions(ts[i]), lex[LowerString(ts[i])][k].form))
  {
    RestoredLowerUnambiguous(lex, ts, None, i);
    assert LowerAll(ts)[i] == LowerString(ts[i]);
  }

  /** With a scorer, the token at an ambiguous position becomes a candidate
      that maximises the combined score of the sentence in which the tokens
      before it are already final and the tokens after it are as the first
      loop left them; the position's upper-case positions are put back. */
  lemma RestoreBestHypothesis(lex: Lexicon, ts: seq<string>, score: Scorer, i: nat)
    requires i < |ts| && Ambiguous(lex, LowerString(ts[i]))
    requires RestoreTokens(lex, ts, Some(score)).Success?
    ensures var cands := lex[LowerString(ts[i])];
            var fin := RestoredLower(lex, ts, Some(score)).value;
            var fp := LookupAll(lex, LowerAll(ts), true);
            exists k :: (BestHypothesis(score, cands, k, fin[..i], fp[i + 1..])
              && fin[i] == cands[k].form
              && RestoreTokens(lex, ts, Some(score)).value[i] == ApplyCase(UpperPositions(ts[i]), cands[k].form))
  {
    var low := LowerAll(ts);
    var t := low[i];
    assert t == LowerString(ts[i]);
    var cands := lex[t];
    var fin := Rescore(lex, low, score, |low|);
    var fp := LookupAll(lex, low, true);
    var before := Rescore(lex, low, score, i);
    assert |cands| > 0;
    var ss := HypothesisScores(score, cands, before, i);
    var k := FirstMaxIndex(ss);
    assert Rescore(lex, low, score, i + 1)[i] == cands[k].form;
    RescoreSettled(lex, low, score, i + 1, |low|, i);
    assert fin[i] == cands[k].form;
    RescoreView(lex, low, score, i);
    assert BestHypothesis(score, cands, k, fin[..i], fp[i + 1..]);
    assert RestoredLower(lex, ts, Some(score)) == Success(fin);
    assert RestoreTokens(lex, ts, Some(score)).value[i] == ApplyCase(UpperPositions(ts[i]), fin[i]);
  }

  /** While position `i` is rescored, the positions before it are final
      and the positions after it are as the first loop left them. */
  lemma RescoreView(lex: Lexicon, low: seq<string>, score: Scorer, i: nat)
    requires i < |low|
    ensures Rescore(lex, low, score, i)[..i] == Rescore(lex, low, score, |low|)[..i]
    ensures Rescore(lex, low, score, i)[i + 1..] == LookupAll(lex, low, true)[i + 1..]
  {
    var before := Rescore(lex, low, score, i);
    var fin := Rescore(lex, low, score, |low|);
    var fp := LookupAll(lex, low, true);
    forall j | 0 <= j < i ensures before[j] == fin[j] {
      RescoreSettled(lex, low, score, i, |low|, j);
    }
    forall j | i + 1 <= j < |low| ensures before[j] == fp[j] {
      RescoreAhead(lex, low, score, i, j);
    }
  }

  /** A worked case: with no scorer, "Zavrsio" against an entry whose
      heavier candidate is "završio" becomes "završio" with the capitals of
      "Zavrsio" put back. */
  lemma HeavierFormWins()
    ensures RestoreTokens(map["zavrsio" := [Candidate("zavr\U{161}io", 9), Candidate("zavrsio", 1)]], ["Zavrsio"], None)
         == Success([ApplyCase(UpperPositions("Zavrsio"), "zavr\U{161}io")])
  {
    var lex := map["zavrsio" := [Candidate("zavr\U{161}io", 9), Candidate("zavrsio", 1)]];
    ExampleRestoredLower(lex, ["Zavrsio"]);
    RestoreOneToken(lex, "Zavrsio", None, "zavr\U{161}io");
  }

  /** A one-token input: the restored form with the token's case put back. */
  lemma RestoreOneToken(lex: Lexicon, t: string, lm: Option<Scorer>, u: string)
    requires RestoredLower(lex, [t], lm) == Success([u])
    ensures RestoreTokens(lex, [t], lm) == Success([ApplyCase(UpperPositions(t), u)])
  {
    var r := seq(1, i requires 0 <= i < 1 => ApplyCase(UpperPositions([t][i]), [u][i]));
    assert r == [ApplyCase(UpperPositions(t), u)];
  }

  lemma ExampleRestoredLower(lex: Lexicon, ts: seq<string>)
    requires lex == map["zavrsio" := [Candidate("zavr\U{161}io", 9), Candidate("zavrsio", 1)]]
    requires ts == ["Zavrsio"]
    ensures RestoredLower(lex, ts, None) == Success(["zavr\U{161}io"])
  {
    ExampleLower();
    ExampleLookup(lex);
    var low := LowerAll(ts);
    assert low == ["zavrsio"];
    assert NoEmptyEntry(lex, low);
    assert LookupAll(lex, low, false) == ["zavr\U{161}io"];
  }

  lemma ExampleLower()
    ensures LowerString("Zavrsio") == "zavrsio"
  {
  }

  lemma ExampleLookup(lex: Lexicon)
    requires lex == map["zavrsio" := [Candidate("zavr\U{161}io", 9), Candidate("zavrsio", 1)]]
    ensures LookupToken(lex, "zavrsio", false) == "zavr\U{161}io"
  {
    assert Weights(lex["zavrsio"]) == [9, 1];
    assert FirstMaxIndex([9, 1]) == 0;
  }

  // -----------------------------------------------------------------------
  // The algorithm as the source runs it.
  // -----------------------------------------------------------------------

  /** `restore_diacritics_tokens` for a loaded lexicon: record the case,
      lower-case, look every token up, then rescore the ambiguous positions
      in increasing order when there is a scorer, and put the case back. */
  method RestoreDiacriticsTokens(lexicon: Lexicon, tokenList: seq<string>, lm: Option<Scorer>)
    returns (r: Result<seq<string>, Error>)
    ensures r == RestoreTokens(lexicon, tokenList, lm)
  {
    var uppers := GetUppers(tokenList);
    var low := LowerAll(tokenList);
    var tl, indices, ok := LookupPass(lexicon, low, lm.Some?);
    if !ok {
      return Failure(NoCandidates);
    }
    if lm.Some? {
      tl, ok := RescorePass(lexicon, low, lm.value, tl, indices);
      if !ok {
        return Failure(NoCandidates);
      }
    }
    var restored := ApplyUppers(uppers, tl);
    assert restored == seq(|tokenList|, i requires 0 <= i < |tokenList| => ApplyCase(UpperPositions(tokenList[i]), tl[i]));
    r := Success(restored);
  }

  /** The indices the first loop sets aside: exactly the ambiguous positions
      when there is a scorer, none otherwise, in increasing order. */
  predicate DeferredIndices(lex: Lexicon, low: seq<string>, scored: bool, indices: seq<nat>) {
    && StrictlyIncreasing(indices)
    && (forall k :: 0 <= k < |indices| ==> indices[k] < |low| && scored && Ambiguous(lex, low[indices[k]]))
    && (scored ==> forall j :: 0 <= j < |low| && Ambiguous(lex, low[j]) ==> j in indices)
  }

  /** The first loop of `restore_diacritics_tokens`. Without a scorer it
      fails on the first empty entry; with one it defers every ambiguous
      position. */
  method LookupPass(lexicon: Lexicon, low: seq<string>, scored: bool)
    returns (tl: seq<string>, indices: seq<nat>, ok: bool)
    ensures ok <==> scored || NoEmptyEntry(lexicon, low)
    ensures ok ==> tl == LookupAll(lexicon, low, scored) && DeferredIndices(lexicon, low, scored, indices)
  {
    tl := low;
    indices := [];
    for index := 0 to |tl|
      invariant |tl| == |low|
      invariant forall j :: 0 <= j < index ==> tl[j] == LookupToken(lexicon, low[j], scored)
      invariant forall j :: index <= j < |tl| ==> tl[j] == low[j]
      invariant !scored ==> forall j :: 0 <= j < index && low[j] in lexicon ==> |lexicon[low[j]]| > 0
      invariant StrictlyIncreasing(indices)
      invariant forall k :: 0 <= k < |indices| ==> indices[k] < index && scored && Ambiguous(lexicon, low[indices[k]])
      invariant scored ==> forall j :: 0 <= j < index && Ambiguous(lexicon, low[j]) ==> j in indices
    {
      var token := tl[index];
      if token in lexicon {
        var cands := lexicon[token];
        if |cands| == 1 {
          tl := tl[index := cands[0].form];
        } else if !scored {
          if |cands| == 0 {
            // `sorted` of an empty dictionary has no element 0.
            assert !NoEmptyEntry(lexicon, low);
            return tl, indices, false;
          }
          tl := tl[index := cands[FirstMaxIndex(Weights(cands))].form];
        } else {
          indices := indices + [index];
        }
      }
    }
    ok := true;
  }

  /** The second loop of `restore_diacritics_tokens`: each deferred position,
      in increasing order, takes the hypothesis with the best combined score
      in the sentence as it then stands. It fails on an empty entry. */
  method RescorePass(lexicon: Lexicon, low: seq<string>, score: Scorer, tl0: seq<string>, indices: seq<nat>)
    returns (tl: seq<string>, ok: bool)
    requires tl0 == LookupAll(lexicon, low, true) && DeferredIndices(lexicon, low, true, indices)
    ensures ok <==> NoEmptyEntry(lexicon, low)
    ensures ok ==> tl == Rescore(lexicon, low, score, |low|)
  {
    tl := tl0;
    NoAmbiguousBetween(lexicon, low, indices, 0);
    RescoreSkip(lexicon, low, score, 0, NextIndex(indices, 0, |low|));
    for k := 0 to |indices|
      invariant tl == Rescore(lexicon, low, score, NextIndex(indices, k, |low|))
      invariant forall m :: 0 <= m < k ==> |lexicon[low[indices[m]]]| > 0
    {
      var index := indices[k];
      assert index == NextIndex(indices, k, |low|) && index < |low| && Ambiguous(lexicon, low[index]);
      RescoreAhead(lexicon, low, score, index, index);
      assert tl[index] == low[index];
      var cands := lexicon[tl[index]];
      if |cands| == 0 {
        // `max` of an empty dictionary raises.
        assert !NoEmptyEntry(lexicon, low);
        return tl, false;
      }
      var scores := HypothesisLoop(score, cands, tl, index);
      tl := tl[index := cands[FirstMaxIndex(scores)].form];
      RescoreStep(lexicon, low, score, index);
      assert tl == Rescore(lexicon, low, score, index + 1);
      NoAmbiguousBetween(lexicon, low, indices, k + 1);
      RescoreSkip(lexicon, low, score, index + 1, NextIndex(indices, k + 1, |low|));
    }
    ok := true;
    DeferredNonEmpty(lexicon, low, indices);
  }

  /** When every deferred entry has a candidate, no entry is empty. */
  lemma DeferredNonEmpty(lex: Lexicon, low: seq<string>, indices: seq<nat>)
    requires DeferredIndices(lex, low, true, indices)
    requires forall m :: 0 <= m < |indices| ==> |lex[low[indices[m]]]| > 0
    ensures NoEmptyEntry(lex, low)
  {
    forall j | 0 <= j < |low| && Ambiguous(lex, low[j]) ensures |lex[low[j]]| > 0 {
      assert j in indices;
    }
  }

  lemma RescoreStep(lex: Lexicon, low: seq<string>, score: Scorer, n: nat)
    requires n < |low| && Ambiguous(lex, low[n]) && |lex[low[n]]| > 0
    ensures var tl := Rescore(lex, low, score, n);
            var cands := lex[low[n]];
            Rescore(lex, low, score, n + 1) == tl[n := cands[FirstMaxIndex(HypothesisScores(score, cands, tl, n))].form]
  {
  }

  /** The innermost loop: the combined score of every hypothesis at `index`. */
  method HypothesisLoop(score: Scorer, cands: seq<Candidate>, tl: seq<string>, index: nat) returns (scores: seq<int>)
    requires index < |tl|
    ensures scores == HypothesisScores(score, cands, tl, index)
  {
    scores := [];
    for h := 0 to |cands|
      invariant |scores| == h
      invariant forall j :: 0 <= j < h ==> scores[j] == HypothesisScore(score, tl[..index], cands[j], tl[index + 1..])
    {
      var sent := Join(tl[..index] + [cands[h].form] + tl[index + 1..], " ");
      scores := scores + [LM_LAMBDA * score(sent) + TM_LAMBDA * cands[h].weight];
    }
  }

  /** The next index to rescore after `k` of them are done, or `n` when none is left. */
  function NextIndex(indices: seq<nat>, k: nat, n: nat): nat {
    if k < |indices| then indices[k] else n
  }

  /** Between two consecutive ambiguous positions there is none. */
  lemma NoAmbiguousBetween(lex: Lexicon, low: seq<string>, indices: seq<nat>, k: nat)
    requires k <= |indices|
    requires StrictlyIncreasing(indices)
    requires forall m :: 0 <= m < |indices| ==> indices[m] < |low| && Ambiguous(lex, low[indices[m]])
    requires forall j :: 0 <= j < |low| && Ambiguous(lex, low[j]) ==> j in indices
    ensures var from := if k == 0 then 0 else indices[k - 1] + 1;
            from <= NextIndex(indices, k, |low|) <= |low|
            && forall j :: from <= j < NextIndex(indices, k, |low|) ==> !Ambiguous(lex, low[j])
  {
    var from := if k == 0 then 0 else indices[k - 1] + 1;
    forall j | from <= j < NextIndex(indices, k, |low|) ensures !Ambiguous(lex, low[j]) {
      forall m | 0 <= m < |indices| ensures indices[m] != j {
        if m < k {
          assert m == k - 1 || indices[m] < indices[k - 1];
        } else {
          assert m == k || indices[k] < indices[m];
        }
      }
    }
  }
}
