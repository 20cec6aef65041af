/**
 * Recipient parsing (`parseAddressesFromText`): free text, pasted or read from
 * an uploaded file, becomes the list of recipient addresses. Tokens are
 * separated by runs of newline, comma, semicolon, tab or space (a carriage
 * return counts as a newline), trimmed, and the empty ones dropped; of the
 * tokens that are addresses, the first one of each lower-cased spelling is
 * kept, with its own casing and in input order.
 */
module Recipients {
  import opened Common
  import opened Text
  import opened Address

  predicate IsSeparator(c: char)
  {
    c == '\n' || c == ',' || c == ';' || c == '\t' || c == ' '
  }

  predicate NoSeparator(t: string)
  {
    forall i :: 0 <= i < |t| ==> !IsSeparator(t[i])
  }

  /** `replace(/\r/g, "\n")`. */
  function NewlinesForReturns(s: string): (r: string)
    ensures |r| == |s|
    ensures forall i :: 0 <= i < |s| ==> r[i] == (if s[i] == '\r' then '\n' else s[i])
  {
    seq(|s|, i requires 0 <= i < |s| => if s[i] == '\r' then '\n' else s[i])
  }

  /** Drops a leading run of separators. */
  function DropSeparators(s: string): (r: string)
    ensures |r| <= |s| && r == s[|s| - |r|..]
    ensures r == [] || !IsSeparator(r[0])
  {
    if s != [] && IsSeparator(s[0]) then DropSeparators(s[1..]) else s
  }

  /**
   * `split(/[\n,;\t ]+/g)`: the fields between maximal separator runs. A
   * leading or trailing run yields an empty first or last field, and the
   * empty text yields one empty field, as in JavaScript.
   */
  function Split(s: string): (r: seq<string>)
    ensures |r| >= 1
    ensures forall k :: 0 <= k < |r| ==> NoSeparator(r[k])
    decreases |s|
  {
    if s == [] then [""]
    else if IsSeparator(s[0]) then [""] + Split(DropSeparators(s[1..]))
    else
      var rest := Split(s[1..]);
      assert NoSeparator([s[0]] + rest[0]) by {
        assert forall i :: 1 <= i < 1 + |rest[0]| ==> ([s[0]] + rest[0])[i] == rest[0][i - 1];
      }
      [[s[0]] + rest[0]] + rest[1..]
  }

  predicate AllSeparators(t: string)
  {
    forall i :: 0 <= i < |t| ==> IsSeparator(t[i])
  }

  /** The maximal separator runs of the text, in order: what the split pattern matches. */
  function SeparatorRuns(s: string): seq<string>
    decreases |s|
  {
    if s == [] then []
    else if IsSeparator(s[0]) then
      var rest := DropSeparators(s[1..]);
      [s[..|s| - |rest|]] + SeparatorRuns(rest)
    else SeparatorRuns(s[1..])
  }

  /** Fields interleaved with the runs between them: `f0 + r0 + f1 + r1 + … + fn`. */
  function Weave(fields: seq<string>, runs: seq<string>): string
    requires |fields| == |runs| + 1
  {
    if runs == [] then fields[0] else fields[0] + runs[0] + Weave(fields[1..], runs[1..])
  }

  /** Every run is a non-empty stretch of separators. */
  predicate SeparatorRunsOnly(runs: seq<string>)
  {
    forall k :: 0 <= k < |runs| ==> runs[k] != [] && AllSeparators(runs[k])
  }

  /**
   * The split cuts the text exactly at its maximal separator runs: the text
   * is its fields interleaved with non-empty runs of separators, and no field
   * holds a separator, so every field is a maximal separator-free stretch.
   */
  lemma {:induction false} SplitWeaves(s: string)
    ensures |Split(s)| == |SeparatorRuns(s)| + 1
    ensures SeparatorRunsOnly(SeparatorRuns(s))
    ensures Weave(Split(s), SeparatorRuns(s)) == s
    decreases |s|
  {
    if s == [] {
    } else if IsSeparator(s[0]) {
      SplitWeaves(DropSeparators(s[1..]));
      SplitWeavesAtRun(s);
    } else {
      SplitWeaves(s[1..]);
      SplitWeavesInField(s);
    }
  }

  /** The step of `SplitWeaves` for a text that starts with a separator run. */
  lemma SplitWeavesAtRun(s: string)
    requires s != [] && IsSeparator(s[0])
    requires var rest := DropSeparators(s[1..]);
      |Split(rest)| == |SeparatorRuns(rest)| + 1 && SeparatorRunsOnly(SeparatorRuns(rest))
      && Weave(Split(rest), SeparatorRuns(rest)) == rest
    ensures |Split(s)| == |SeparatorRuns(s)| + 1
    ensures SeparatorRunsOnly(SeparatorRuns(s))
    ensures Weave(Split(s), SeparatorRuns(s)) == s
  {
    var rest := DropSeparators(s[1..]);
    var run := s[..|s| - |rest|];
    SplitAtRun(s);
    LeadingRun(s);
    assert SeparatorRuns(s) == [run] + SeparatorRuns(rest);
    WeaveAfterRun(s, run, rest, Split(rest), SeparatorRuns(rest));
  }

  /** A text that starts with a separator is its leading run followed by the rest. */
  lemma LeadingRun(s: string)
    requires s != [] && IsSeparator(s[0])
    ensures var k := |s| - |DropSeparators(s[1..])|;
      1 <= k && s == s[..k] + DropSeparators(s[1..]) && AllSeparators(s[..k])
  {
    var rest := DropSeparators(s[1..]);
    DroppedAreSeparators(s[1..]);
    RestAfterRun(s, rest);
    RunCons(s, |s| - 1 - |rest|);
  }

  /** A separator followed by a run of separators is a run of separators. */
  lemma RunCons(s: string, m: nat)
    requires s != [] && IsSeparator(s[0]) && m <= |s| - 1 && AllSeparators(s[1..][..m])
    ensures AllSeparators(s[..m + 1])
  {
    var run := s[..m + 1];
    forall i | 0 <= i < |run| ensures IsSeparator(run[i]) {
      if i > 0 {
        assert run[i] == s[1..][..m][i - 1];
      }
    }
  }

  /** A suffix of the text after its first character is a suffix of the text. */
  lemma RestAfterRun(s: string, rest: string)
    requires s != [] && |rest| <= |s| - 1 && rest == s[1..][|s| - 1 - |rest|..]
    ensures s == s[..|s| - |rest|] + rest
  {
    assert rest == s[|s| - |rest|..];
  }

  /** What `DropSeparators` drops is a run of separators. */
  lemma {:induction false} DroppedAreSeparators(s: string)
    ensures AllSeparators(s[..|s| - |DropSeparators(s)|])
    decreases |s|
  {
    if s != [] && IsSeparator(s[0]) {
      DroppedAreSeparators(s[1..]);
      assert s[..|s| - |DropSeparators(s)|] == [s[0]] + s[1..][..|s| - 1 - |DropSeparators(s[1..])|];
    }
  }

  /** A run and a woven rest make a woven text with one more run. */
  lemma WeaveAfterRun(s: string, run: string, rest: string, fields: seq<string>, runs: seq<string>)
    requires s == run + rest && run != [] && AllSeparators(run)
    requires |fields| == |runs| + 1 && SeparatorRunsOnly(runs) && Weave(fields, runs) == rest
    ensures Weave([""] + fields, [run] + runs) == s
    ensures SeparatorRunsOnly([run] + runs)
  {
    WeaveRun(run, fields, runs);
  }

  /** A text that starts with a separator splits into an empty field and the split of what follows the run. */
  lemma SplitAtRun(s: string)
    requires s != [] && IsSeparator(s[0])
    ensures Split(s) == [""] + Split(DropSeparators(s[1..]))
  {
  }

  /** The step of `SplitWeaves` for a text that starts inside a field. */
  lemma SplitWeavesInField(s: string)
    requires s != [] && !IsSeparator(s[0])
    requires |Split(s[1..])| == |SeparatorRuns(s[1..])| + 1 && SeparatorRunsOnly(SeparatorRuns(s[1..]))
      && Weave(Split(s[1..]), SeparatorRuns(s[1..])) == s[1..]
    ensures |Split(s)| == |SeparatorRuns(s)| + 1
    ensures SeparatorRunsOnly(SeparatorRuns(s))
    ensures Weave(Split(s), SeparatorRuns(s)) == s
  {
    WeaveExtendsFirst(s[0], Split(s[1..]), SeparatorRuns(s[1..]));
    assert [s[0]] + s[1..] == s;
  }

  /** A run in front of an empty first field is a run in front of the woven text. */
  lemma WeaveRun(run: string, fields: seq<string>, runs: seq<string>)
    requires |fields| == |runs| + 1
    ensures Weave([""] + fields, [run] + runs) == run + Weave(fields, runs)
  {
    assert ([""] + fields)[1..] == fields;
    assert ([run] + runs)[1..] == runs;
  }

  /** A character in front of the first field is a character in front of the woven text. */
  lemma WeaveExtendsFirst(c: char, fields: seq<string>, runs: seq<string>)
    requires |fields| == |runs| + 1
    ensures Weave([[c] + fields[0]] + fields[1..], runs) == [c] + Weave(fields, runs)
  {
    var g := [[c] + fields[0]] + fields[1..];
    assert g[1..] == fields[1..];
    if runs != [] {
      assert [c] + fields[0] + runs[0] + Weave(fields[1..], runs[1..])
        == [c] + (fields[0] + runs[0] + Weave(fields[1..], runs[1..]));
    }
  }

  /**
   * `map((s) => s.trim()).filter(Boolean)`: the trimmed fields, without the
   * ones that trim to nothing, in order.
   */
  function TrimmedNonEmpty(ts: seq<string>): seq<string>
  {
    if ts == [] then []
    else (if Trim(ts[0]) != [] then [Trim(ts[0])] else []) + TrimmedNonEmpty(ts[1..])
  }

  /** The trimmed, non-empty tokens of the text, before any validation. */
  function Tokens(text: string): seq<string>
  {
    TrimmedNonEmpty(Split(NewlinesForReturns(text)))
  }

  /**
   * Token `j` is an address and no earlier token is an address with the
   * same lower-cased spelling.
   */
  predicate IsFirstAddress(toks: seq<string>, j: nat, checksumOk: string -> bool)
    requires j < |toks|
  {
    && IsAddress(toks[j], checksumOk)
    && forall i :: 0 <= i < j ==> !(IsAddress(toks[i], checksumOk) && Lower(toks[i]) == Lower(toks[j]))
  }

  /** Reference definition: the first-occurrence addresses among the first `n` tokens, in order. */
  function FirstAddresses(toks: seq<string>, n: nat, checksumOk: string -> bool): seq<string>
    requires n <= |toks|
  {
    if n == 0 then []
    else
      FirstAddresses(toks, n - 1, checksumOk)
      + (if IsFirstAddress(toks, n - 1, checksumOk) then [toks[n - 1]] else [])
  }

  /** The lower-cased spellings of the addresses among the first `n` tokens. */
  function AddressKeys(toks: seq<string>, n: nat, checksumOk: string -> bool): set<string>
    requires n <= |toks|
  {
    set j | 0 <= j < n && IsAddress(toks[j], checksumOk) :: Lower(toks[j])
  }

  /** The lower-cased spellings of a list of addresses. */
  function Keys(xs: seq<string>): set<string>
  {
    set k | 0 <= k < |xs| :: Lower(xs[k])
  }

  predicate LowerDistinct(xs: seq<string>)
  {
    forall a, b :: 0 <= a < b < |xs| ==> Lower(xs[a]) != Lower(xs[b])
  }

  /** What `parseAddressesFromText(text)` returns. */
  function ParsedAddresses(text: string, checksumOk: string -> bool): seq<string>
  {
    FirstAddresses(Tokens(text), |Tokens(text)|, checksumOk)
  }

  /**
   * `parseAddressesFromText`: the tokens of the text, then the loop over them
   * (`KeepFirstAddresses`).
   */
  method ParseAddressesFromText(text: string, checksumOk: string -> bool) returns (out: seq<string>)
    ensures out == ParsedAddresses(text, checksumOk)
  {
    var raw := Tokens(text);
    out := KeepFirstAddresses(raw, checksumOk);
  }

  /**
   * The loop of `parseAddressesFromText`: each address token whose lower-cased
   * spelling is not yet in `seen` is added to `seen` and pushed onto `out`.
   */
  method KeepFirstAddresses(raw: seq<string>, checksumOk: string -> bool) returns (out: seq<string>)
    ensures out == FirstAddresses(raw, |raw|, checksumOk)
    ensures forall k :: 0 <= k < |out| ==> IsAddress(out[k], checksumOk) && out[k] in raw
    ensures LowerDistinct(out)
    ensures Keys(out) == AddressKeys(raw, |raw|, checksumOk)
  {
    var seen: set<string> := {};
    out := [];
    for i := 0 to |raw|
      invariant out == FirstAddresses(raw, i, checksumOk)
      invariant seen == AddressKeys(raw, i, checksumOk)
    {
      var v := raw[i];
      FirstAddressesStep(raw, i, checksumOk);
      if IsAddress(v, checksumOk) {
        var lower := Lower(v);
        if lower !in seen {
          seen := seen + {lower};
          out := out + [v];
        }
      }
    }
    FirstAddressesSound(raw, |raw|, checksumOk);
    assert raw[..|raw|] == raw;
  }

  /** How one more token changes the set of seen keys, and when it is a first occurrence. */
  lemma AddressKeysStep(toks: seq<string>, i: nat, checksumOk: string -> bool)
    requires i < |toks|
    ensures AddressKeys(toks, i + 1, checksumOk)
         == AddressKeys(toks, i, checksumOk) + (if IsAddress(toks[i], checksumOk) then {Lower(toks[i])} else {})
    ensures IsFirstAddress(toks, i, checksumOk)
        <==> IsAddress(toks[i], checksumOk) && Lower(toks[i]) !in AddressKeys(toks, i, checksumOk)
  {
  }

  /** One more token extends the parsed list exactly when it is an address whose key is not yet seen. */
  lemma FirstAddressesStep(toks: seq<string>, i: nat, checksumOk: string -> bool)
    requires i < |toks|
    ensures FirstAddresses(toks, i + 1, checksumOk)
         == FirstAddresses(toks, i, checksumOk)
            + (if IsAddress(toks[i], checksumOk) && Lower(toks[i]) !in AddressKeys(toks, i, checksumOk) then [toks[i]] else [])
    ensures AddressKeys(toks, i + 1, checksumOk)
         == AddressKeys(toks, i, checksumOk) + (if IsAddress(toks[i], checksumOk) then {Lower(toks[i])} else {})
  {
    AddressKeysStep(toks, i, checksumOk);
  }

  /**
   * The parsed list holds only addresses taken from the tokens, no two equal
   * after lower-casing, and every address token is represented by its
   * lower-cased spelling.
   */
  lemma {:induction false} FirstAddressesSound(toks: seq<string>, n: nat, checksumOk: string -> bool)
    requires n <= |toks|
    ensures forall k :: 0 <= k < |FirstAddresses(toks, n, checksumOk)| ==>
      IsAddress(FirstAddresses(toks, n, checksumOk)[k], checksumOk) && FirstAddresses(toks, n, checksumOk)[k] in toks[..n]
    ensures Keys(FirstAddresses(toks, n, checksumOk)) == AddressKeys(toks, n, checksumOk)
    ensures LowerDistinct(FirstAddresses(toks, n, checksumOk))
  {
    if n > 0 {
      var prev := FirstAddresses(toks, n - 1, checksumOk);
      var out := FirstAddresses(toks, n, checksumOk);
      FirstAddressesSound(toks, n - 1, checksumOk);
      var t := toks[n - 1];
      assert toks[..n] == toks[..n - 1] + [t];
      AddressKeysStep(toks, n - 1, checksumOk);
      if IsFirstAddress(toks, n - 1, checksumOk) {
        assert out == prev + [t];
        KeysSnoc(prev, t);
      } else {
        assert out == prev;
      }
    }
  }

  lemma KeysSnoc(xs: seq<string>, x: string)
    requires LowerDistinct(xs) && Lower(x) !in Keys(xs)
    ensures Keys(xs + [x]) == Keys(xs) + {Lower(x)}
    ensures LowerDistinct(xs + [x])
  {
    var ys := xs + [x];
    forall key | key in Keys(ys) ensures key in Keys(xs) + {Lower(x)} {
      var k :| 0 <= k < |ys| && Lower(ys[k]) == key;
      if k < |xs| { assert ys[k] == xs[k]; }
    }
    forall key | key in Keys(xs) ensures key in Keys(ys) {
      var k :| 0 <= k < |xs| && Lower(xs[k]) == key;
      assert ys[k] == xs[k];
    }
    assert Lower(ys[|xs|]) in Keys(ys);
    forall a, b | 0 <= a < b < |ys| ensures Lower(ys[a]) != Lower(ys[b]) {
      if b == |xs| {
        assert Lower(xs[a]) in Keys(xs);
      } else {
        assert ys[a] == xs[a] && ys[b] == xs[b];
      }
    }
  }

  /** An address is a token that survives splitting, trimming and filtering untouched. */
  predicate CleanToken(x: string)
  {
    && x != [] && !IsJsWhitespace(x[0]) && !IsJsWhitespace(x[|x| - 1])
    && forall i :: 0 <= i < |x| ==> !IsSeparator(x[i]) && x[i] != '\r'
  }

  lemma AddressIsCleanToken(x: string)
    requires HasAddressShape(x)
    ensures CleanToken(x)
  {
    AddressCharacters(x);
  }

  /** Splitting text that begins with a separator-free field extends the first field. */
  lemma {:induction false} SplitAfterField(x: string, s: string)
    requires NoSeparator(x)
    ensures Split(x + s) == [x + Split(s)[0]] + Split(s)[1..]
    decreases |x|
  {
    if x != [] {
      assert (x + s)[1..] == x[1..] + s;
      SplitAfterField(x[1..], s);
      assert [x[0]] + (x[1..] + Split(s)[0]) == x + Split(s)[0];
    } else {
      assert x + s == s;
      assert x + Split(s)[0] == Split(s)[0];
      assert [Split(s)[0]] + Split(s)[1..] == Split(s);
    }
  }

  /** Joining clean tokens with newlines and splitting again gives the tokens back. */
  lemma {:induction false} SplitJoinLines(xs: seq<string>)
    requires xs != []
    requires forall k :: 0 <= k < |xs| ==> CleanToken(xs[k])
    ensures Split(Join(xs, "\n")) == xs
  {
    var x := xs[0];
    if |xs| == 1 {
      SplitAfterField(x, "");
      assert x + "" == x;
    } else {
      var y := Join(xs[1..], "\n");
      SplitJoinLines(xs[1..]);
      assert y != [] && !IsSeparator(y[0]) by {
        assert Split(y)[0] == xs[1];
        SplitHead(y);
      }
      assert Join(xs, "\n") == x + ("\n" + y);
      SplitAfterField(x, "\n" + y);
      assert ("\n" + y)[1..] == y;
      assert Split("\n" + y) == [""] + Split(y);
      assert x + "" == x;
      assert [x] + xs[1..] == xs;
    }
  }

  /** The first field of a split is a prefix of the text. */
  lemma {:induction false} SplitHead(s: string)
    ensures |Split(s)[0]| <= |s| && Split(s)[0] == s[..|Split(s)[0]|]
    decreases |s|
  {
    if s != [] && !IsSeparator(s[0]) {
      SplitHead(s[1..]);
    }
  }

  /** Trimming and filtering leave a list of clean tokens as it is. */
  lemma {:induction false} TrimmedNonEmptyKeeps(xs: seq<string>)
    requires forall k :: 0 <= k < |xs| ==> CleanToken(xs[k])
    ensures TrimmedNonEmpty(xs) == xs
  {
    if xs != [] {
      TrimKeeps(xs[0]);
      TrimmedNonEmptyKeeps(xs[1..]);
      assert [xs[0]] + xs[1..] == xs;
    }
  }

  /** The tokens of newline-joined clean tokens are those tokens. */
  lemma TokensOfJoinedLines(xs: seq<string>)
    requires forall k :: 0 <= k < |xs| ==> CleanToken(xs[k])
    ensures Tokens(Join(xs, "\n")) == xs
  {
    var text := Join(xs, "\n");
    JoinHasNoReturn(xs);
    NoReturnsKept(text);
    if xs == [] {
      NoTokens();
    } else {
      SplitJoinLines(xs);
      TrimmedNonEmptyKeeps(xs);
    }
  }

  lemma NoReturnsKept(s: string)
    requires forall i :: 0 <= i < |s| ==> s[i] != '\r'
    ensures NewlinesForReturns(s) == s
  {
  }

  /** The empty text has no tokens. */
  lemma NoTokens()
    ensures Tokens("") == []
  {
    assert NewlinesForReturns("") == "";
    assert Split("") == [""];
    assert Trim("") == "";
    assert TrimmedNonEmpty([""]) == [];
  }

  lemma {:induction false} JoinHasNoReturn(xs: seq<string>)
    requires forall k :: 0 <= k < |xs| ==> CleanToken(xs[k])
    ensures forall i :: 0 <= i < |Join(xs, "\n")| ==> Join(xs, "\n")[i] != '\r'
  {
    if |xs| > 1 {
      JoinHasNoReturn(xs[1..]);
      var a := xs[0] + "\n";
      var b := Join(xs[1..], "\n");
      assert Join(xs, "\n") == a + b;
      forall i | 0 <= i < |a + b| ensures (a + b)[i] != '\r' {
        if i >= |a| {
          assert (a + b)[i] == b[i - |a|];
        }
      }
    }
  }

  /** A list of addresses that is already case-insensitively distinct is its own first occurrences. */
  lemma {:induction false} FirstAddressesOfDistinct(xs: seq<string>, n: nat, checksumOk: string -> bool)
    requires n <= |xs|
    requires forall k :: 0 <= k < |xs| ==> IsAddress(xs[k], checksumOk)
    requires LowerDistinct(xs)
    ensures FirstAddresses(xs, n, checksumOk) == xs[..n]
  {
    if n > 0 {
      FirstAddressesOfDistinct(xs, n - 1, checksumOk);
      assert IsFirstAddress(xs, n - 1, checksumOk);
      assert xs[..n] == xs[..n - 1] + [xs[n - 1]];
    }
  }

  /**
   * Every parsed address passes the address check, is one of the text's
   * tokens, non-empty and already trimmed, and no two parsed addresses differ
   * only in case.
   */
  lemma ParsedAddressesSound(text: string, checksumOk: string -> bool)
    ensures forall k :: 0 <= k < |ParsedAddresses(text, checksumOk)| ==>
      var a := ParsedAddresses(text, checksumOk)[k];
      IsAddress(a, checksumOk) && a in Tokens(text) && a != [] && Trim(a) == a
    ensures LowerDistinct(ParsedAddresses(text, checksumOk))
  {
    var toks := Tokens(text);
    var out := ParsedAddresses(text, checksumOk);
    FirstAddressesSound(toks, |toks|, checksumOk);
    assert toks[..|toks|] == toks;
    forall k | 0 <= k < |out| ensures IsAddress(out[k], checksumOk) && out[k] in toks && out[k] != [] && Trim(out[k]) == out[k] {
      assert IsAddress(out[k], checksumOk);
      AddressIsTrimmed(out[k]);
    }
  }

  /**
   * Parsing is idempotent on its own newline-joined output: the list the file
   * import stores as `addresses.join("\n")` parses back to the same list.
   */
  lemma ParseJoinedIsIdentity(text: string, checksumOk: string -> bool)
    ensures ParsedAddresses(Join(ParsedAddresses(text, checksumOk), "\n"), checksumOk)
         == ParsedAddresses(text, checksumOk)
  {
    var out := ParsedAddresses(text, checksumOk);
    FirstAddressesSound(Tokens(text), |Tokens(text)|, checksumOk);
    forall k | 0 <= k < |out| ensures CleanToken(out[k]) {
      assert HasAddressShape(out[k]);
      AddressIsCleanToken(out[k]);
    }
    TokensOfJoinedLines(out);
    FirstAddressesOfDistinct(out, |out|, checksumOk);
    assert out[..|out|] == out;
  }
}
