/** Recording and replaying the upper-case positions of tokens
    (`get_uppers` and `apply_uppers` in fast_redi.py). */
module CaseMap {
  import opened Text

  predicate StrictlyIncreasing(ps: seq<nat>) {
    forall i, j :: 0 <= i < j < |ps| ==> ps[i] < ps[j]
  }

  /** The upper-case positions of `t` at or after `from`, in increasing order. */
  function UpperPositionsFrom(t: string, from: nat): (ps: seq<nat>)
    requires from <= |t|
    ensures StrictlyIncreasing(ps)
    ensures forall k :: 0 <= k < |ps| ==> from <= ps[k] < |t| && IsUpper(t[ps[k]])
    ensures forall p :: from <= p < |t| && IsUpper(t[p]) ==> p in ps
    decreases |t| - from
  {
    if from == |t| then []
    else (if IsUpper(t[from]) then [from] else []) + UpperPositionsFrom(t, from + 1)
  }

  /** `[i for i, char in enumerate(token) if char.isupper()]`: the positions
      of `t` holding an upper-case letter, each once, in increasing order. */
  function UpperPositions(t: string): (ps: seq<nat>)
    ensures StrictlyIncreasing(ps)
    ensures forall k :: 0 <= k < |ps| ==> ps[k] < |t|
    ensures forall p :: 0 <= p < |t| ==> (p in ps <==> IsUpper(t[p]))
  {
    UpperPositionsFrom(t, 0)
  }

  /** One token of `apply_uppers`: each listed position that lies inside the
      token is upper-cased, the others are ignored, and the length is kept. */
  function ApplyCase(ps: seq<nat>, t: string): (r: string)
    ensures |r| == |t|
    ensures forall p :: 0 <= p < |t| ==> r[p] == if p in ps then Upper(t[p]) else t[p]
    decreases |ps|
  {
    if ps == [] then t
    else
      var t' := if ps[0] < |t| then t[ps[0] := Upper(t[ps[0]])] else t;
      var r := ApplyCase(ps[1..], t');
      assert forall p :: 0 <= p < |t| ==> (p in ps <==> p == ps[0] || p in ps[1..]);
      assert forall p :: 0 <= p < |t| && p == ps[0] ==> r[p] == Upper(t[p]) by {
        forall p | 0 <= p < |t| && p == ps[0] ensures r[p] == Upper(t[p]) {
          UpperIdempotent(t[p]);
        }
      }
      r
  }

  /** `get_uppers`: one list of upper-case positions per token. */
  method GetUppers(tokenList: seq<string>) returns (uppers: seq<seq<nat>>)
    ensures |uppers| == |tokenList|
    ensures forall i :: 0 <= i < |tokenList| ==> uppers[i] == UpperPositions(tokenList[i])
  {
    uppers := [];
    for i := 0 to |tokenList|
      invariant |uppers| == i
      invariant forall k :: 0 <= k < i ==> uppers[k] == UpperPositions(tokenList[k])
    {
      var positions := UpperPositions(tokenList[i]);
      uppers := uppers + [positions];
    }
  }

  /** `apply_uppers`: pairs the position lists with the tokens as `zip`
      does, so the result is as long as the shorter of the two. */
  method ApplyUppers(uppers: seq<seq<nat>>, tokenList: seq<string>) returns (result: seq<string>)
    ensures |result| == if |uppers| < |tokenList| then |uppers| else |tokenList|
    ensures forall i :: 0 <= i < |result| ==> result[i] == ApplyCase(uppers[i], tokenList[i])
  {
    var n := if |uppers| < |tokenList| then |uppers| else |tokenList|;
    result := [];
    for i := 0 to n
      invariant |result| == i
      invariant forall k :: 0 <= k < i ==> result[k] == ApplyCase(uppers[k], tokenList[k])
    {
      var chars := ApplyPositions(uppers[i], tokenList[i]);
      result := result + [chars];
    }
  }

  /** The inner loop of `apply_uppers` over one token's character list. */
  method ApplyPositions(positions: seq<nat>, token: string) returns (chars: string)
    ensures chars == ApplyCase(positions, token)
  {
    chars := token;
    for j := 0 to |positions|
      invariant ApplyCase(positions[j..], chars) == ApplyCase(positions, token)
    {
      var index := positions[j];
      assert positions[j..][1..] == positions[j + 1..];
      if index < |chars| {
        chars := chars[index := Upper(chars[index])];
      }
    }
    assert positions[|positions|..] == [];
  }

  /** Case round trip: replaying the recorded upper-case positions of `t` on
      its lower-case form gives `t` back. */
  lemma CaseRoundTrip(t: string)
    ensures ApplyCase(UpperPositions(t), LowerString(t)) == t
  {
    var r := ApplyCase(UpperPositions(t), LowerString(t));
    forall p | 0 <= p < |t| ensures r[p] == t[p] {
      if IsUpper(t[p]) {
        UpperLower(t[p]);
      }
    }
  }
}
