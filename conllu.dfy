/** The token filter of `restore_text`: the external tokenizer answers in
    CoNLL-U, one token per line with tab-separated fields, the surface form
    in the second field, and comment lines starting with `#`. */
module Conllu {
  import opened Wrappers
  import opened Text

  /** `line and not line.startswith('#') and line.strip()`. */
  predicate IsTokenLine(line: string) {
    line != [] && line[0] != '#' && Strip(line) != []
  }

  /** The second tab-separated field of a token line that has at least two. */
  function LineToken(line: string): (r: Option<string>)
    ensures r.Some? ==> IsTokenLine(line) && '\t' !in r.value
    ensures r.Some? ==> forall c :: c in r.value ==> c in line
    ensures r.Some? <==> IsTokenLine(line) && '\t' in line
  {
    if IsTokenLine(line) then
      var parts := Split(line, '\t');
      if |parts| >= 2 then
        JoinHasSep(parts, '\t');
        Some(parts[1])
      else
        assert '\t' !in line by {
          assert Join(parts, "\t") == parts[0];
        }
        None
    else None
  }

  /** A token is the second tab-separated field of its line: the line is a
      tab-free first field, a tab, the token, and then nothing or a tab and
      the remaining fields. */
  lemma LineTokenField(line: string)
    requires LineToken(line).Some?
    ensures exists a, rest :: SecondField(line, a, LineToken(line).value, rest)
  {
    var parts := Split(line, '\t');
    assert LineToken(line) == Some(parts[1]);
    JoinSecondField(parts);
  }

  lemma JoinSecondField(parts: seq<string>)
    requires |parts| >= 2 && '\t' !in parts[0] && '\t' !in parts[1]
    ensures exists a, rest :: SecondField(Join(parts, "\t"), a, parts[1], rest)
  {
    if |parts| == 2 {
      JoinTwo(parts);
    } else {
      JoinMore(parts);
    }
  }

  lemma JoinTwo(parts: seq<string>)
    requires |parts| == 2 && '\t' !in parts[0] && '\t' !in parts[1]
    ensures SecondField(Join(parts, "\t"), parts[0], parts[1], "")
  {
    assert parts[1..] == [parts[1]];
  }

  lemma JoinMore(parts: seq<string>)
    requires |parts| > 2 && '\t' !in parts[0] && '\t' !in parts[1]
    ensures SecondField(Join(parts, "\t"), parts[0], parts[1], "\t" + Join(parts[2..], "\t"))
  {
    var tail := parts[1..];
    assert tail[1..] == parts[2..];
    var j2 := Join(parts[2..], "\t");
    assert Join(tail, "\t") == parts[1] + "\t" + j2;
    assert Join(parts, "\t") == parts[0] + "\t" + (parts[1] + "\t" + j2);
    assert parts[0] + "\t" + (parts[1] + "\t" + j2) == parts[0] + "\t" + parts[1] + ("\t" + j2);
  }

  predicate SecondField(line: string, first: string, field: string, rest: string) {
    '\t' !in first && '\t' !in field && line == first + "\t" + field + rest && (rest == [] || rest[0] == '\t')
  }

  /** The values of the present entries of `opts`, in order. */
  function Present<T>(opts: seq<Option<T>>): (vs: seq<T>)
    ensures |vs| <= |opts|
  {
    if opts == [] then []
    else
      var init := Present(opts[..|opts| - 1]);
      match opts[|opts| - 1]
      case None => init
      case Some(v) => init + [v]
  }

  /** Nothing is present exactly when every entry is absent. */
  lemma {:induction false} PresentEmpty<T>(opts: seq<Option<T>>)
    ensures Present(opts) == [] <==> forall i :: 0 <= i < |opts| ==> opts[i].None?
  {
    if opts != [] {
      var front := opts[..|opts| - 1];
      PresentEmpty(front);
      assert forall i :: 0 <= i < |front| ==> front[i] == opts[i];
    }
  }

  /** Every present value is the value of some entry. */
  lemma {:induction false} PresentFrom<T>(opts: seq<Option<T>>, k: nat)
    requires k < |Present(opts)|
    ensures exists i :: 0 <= i < |opts| && opts[i] == Some(Present(opts)[k])
  {
    var front := opts[..|opts| - 1];
    var last := |opts| - 1;
    if k < |Present(front)| {
      PresentFrom(front, k);
      var i :| 0 <= i < |front| && front[i] == Some(Present(front)[k]);
      assert opts[i] == front[i];
    } else {
      assert opts[last] == Some(Present(opts)[k]);
    }
  }

  /** The token each line carries, if any. */
  function LineTokens(lines: seq<string>): (opts: seq<Option<string>>)
    ensures |opts| == |lines|
    ensures forall i :: 0 <= i < |lines| ==> opts[i] == LineToken(lines[i])
  {
    seq(|lines|, i requires 0 <= i < |lines| => LineToken(lines[i]))
  }

  /** The tokens of `lines`, in order: one per line that carries one. */
  function TokensOf(lines: seq<string>): (tokens: seq<string>)
    ensures |tokens| <= |lines|
  {
    Present(LineTokens(lines))
  }

  /** There are no tokens at all exactly when no line carries one. */
  lemma NoTokensExactly(lines: seq<string>)
    ensures TokensOf(lines) == [] <==> forall i :: 0 <= i < |lines| ==> LineToken(lines[i]).None?
  {
    PresentEmpty(LineTokens(lines));
  }

  /** Every token is the second field of one of the lines: it holds no tab,
      and it holds no line break when no line does. */
  lemma TokenFromLine(lines: seq<string>, k: nat)
    requires k < |TokensOf(lines)|
    ensures '\t' !in TokensOf(lines)[k]
    ensures (forall i :: 0 <= i < |lines| ==> '\n' !in lines[i]) ==> '\n' !in TokensOf(lines)[k]
  {
    PresentFrom(LineTokens(lines), k);
  }

  lemma TokensOfSnoc(lines: seq<string>, i: nat)
    requires i < |lines|
    ensures TokensOf(lines[..i + 1]) == TokensOf(lines[..i]) + match LineToken(lines[i]) case None => [] case Some(t) => [t]
  {
    var opts := LineTokens(lines[..i + 1]);
    assert opts[..i] == LineTokens(lines[..i]);
  }

  /** The two tests of the token loop decide `LineToken`. */
  lemma LineTokenCases(line: string)
    ensures var parts := Split(line, '\t');
      LineToken(line) == if IsTokenLine(line) && |parts| >= 2 then Some(parts[1]) else None
  {
  }

  /** The body of the token loop for one line. */
  method ParseLine(line: string) returns (token: Option<string>)
    ensures token == LineToken(line)
  {
    LineTokenCases(line);
    token := None;
    if line != [] && line[0] != '#' && Strip(line) != [] {
      var parts := Split(line, '\t');
      if |parts| >= 2 {
        token := Some(parts[1]);
      }
    }
  }

  /** The token loop of `restore_text` over the tokenizer's `output`:
      `output.strip().split('\n')`, keeping the surface form of every token
      line. No token holds a tab or a line break. */
  method ParseTokens(output: string) returns (tokens: seq<string>)
    ensures tokens == TokensOf(Split(Strip(output), '\n'))
    ensures forall k :: 0 <= k < |tokens| ==> '\t' !in tokens[k] && '\n' !in tokens[k]
  {
    var lines := Split(Strip(output), '\n');
    tokens := [];
    for i := 0 to |lines|
      invariant tokens == TokensOf(lines[..i])
    {
      TokensOfSnoc(lines, i);
      var token := ParseLine(lines[i]);
      if token.Some? {
        tokens := tokens + [token.value];
      }
    }
    assert lines[..|lines|] == lines;
    OutputTokensClean(output);
  }

  /** The tokens of tokenizer output hold neither a tab nor a line break. */
  lemma OutputTokensClean(output: string)
    ensures var tokens := TokensOf(Split(Strip(output), '\n'));
      forall k :: 0 <= k < |tokens| ==> '\t' !in tokens[k] && '\n' !in tokens[k]
  {
    var lines := Split(Strip(output), '\n');
    forall k | 0 <= k < |TokensOf(lines)| ensures '\t' !in TokensOf(lines)[k] && '\n' !in TokensOf(lines)[k] {
      TokenFromLine(lines, k);
    }
  }

  /** Tokenizer output that is only whitespace yields no token, so
      `restore_text` returns its input unchanged. */
  lemma BlankOutputHasNoTokens(output: string)
    requires forall k :: 0 <= k < |output| ==> IsWhitespace(output[k])
    ensures TokensOf(Split(Strip(output), '\n')) == []
  {
    var lines := Split(Strip(output), '\n');
    assert lines == [""];
    NoTokensExactly(lines);
  }
}
