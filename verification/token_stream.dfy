/** An incremental text-segmentation buffer: text arrives in chunks, an
    injected batch tokenizer is re-run over the retained text, and every token
    that has enough context after it is emitted as a `(token, segment id)`
    event and cut off the front of the retained text. */
module TokenStream {
  import opened PyStr

  /** What a tokenizer returns for one token: its text alone, or its text with
      the start and end offsets into the string that was tokenized. */
  datatype Token = Bare(text: string) | Offs(text: string, start: nat, end: nat)

  /** The injected batch tokenizer. */
  type Tokenizer = string -> seq<Token>

  /** An emitted event. */
  datatype TokenData = TokenData(token: string, segmentId: nat)

  /** The outcome of an operation that first checks that the stream is open:
      `Closed` stands for the `RuntimeError` raised on use after close. */
  datatype Status = Ok | Closed(message: string)

  /** A token list is either all bare texts or all texts with offsets. */
  predicate Uniform(ts: seq<Token>)
  {
    || (forall i :: 0 <= i < |ts| ==> ts[i].Bare?)
    || (forall i :: 0 <= i < |ts| ==> ts[i].Offs?)
  }

  /** The tokenizer's declared type: for every input it returns one of the
      two kinds of list, never a mixture. */
  ghost predicate UniformTokenizer(f: Tokenizer)
  {
    forall s :: Uniform(f(s))
  }

  function Texts(ts: seq<Token>): (r: seq<string>)
    ensures |r| == |ts|
  {
    seq(|ts|, i requires 0 <= i < |ts| => ts[i].text)
  }

  /** The text `push_text` emits for a group of accumulated tokens. */
  function GroupText(g: seq<Token>): string
  {
    Accumulate(Texts(g))
  }

  /** What `flush` emits for the non-empty buffer `raw` tokenized as `toks`:
      the texts joined by single spaces (for either kind of token list), or
      the raw buffer itself when the tokenizer found no token. */
  function FlushText(toks: seq<Token>, raw: string): string
  {
    if toks == [] then raw else JoinSpace(Texts(toks))
  }

  /** One relocation step of the bare-text path: find the first occurrence
      of `t` (position 0 when there is none), cut the buffer just after it,
      then strip leading whitespace (CutSpec states the outcome). */
  function Cut(b: string, t: string): string
  {
    LStrip(SliceFrom(b, Max(Find(b, t), 0) + |t|))
  }

  /** Where a relocation step for `t` cuts the buffer `b` before stripping
      whitespace. */
  function CutStart(b: string, t: string): nat
  {
    Min(Max(Find(b, t), 0) + |t|, |b|)
  }

  /** A relocation step leaves a suffix of the buffer: it consumes the first
      occurrence of `t` in full (or the first `|t|` characters when there is
      none) and then only whitespace, and what it leaves does not start with
      whitespace. */
  lemma CutSpec(b: string, t: string)
    ensures IsSuffix(Cut(b, t), b)
    ensures Cut(b, t) == [] || !IsSpace(Cut(b, t)[0])
    ensures CutStart(b, t) <= |b| - |Cut(b, t)|
    ensures forall i :: CutStart(b, t) <= i < |b| - |Cut(b, t)| ==> IsSpace(b[i])
    ensures Find(b, t) != -1 ==> OccursAt(b, t, Find(b, t)) && Find(b, t) + |t| == CutStart(b, t)
  {
    var j := CutStart(b, t);
    var s := b[j..];
    assert SliceFrom(b, Max(Find(b, t), 0) + |t|) == s;
    var n := SpaceRun(s, 0);
    SpaceRunSpec(s, 0);
    assert Cut(b, t) == s[n..] == b[j + n..];
    forall i | j <= i < j + n ensures IsSpace(b[i]) {
      assert b[i] == s[i - j];
    }
    if Find(b, t) != -1 {
      FindFromIsFirst(b, t, 0);
    }
  }

  /** The bare-text path: relocate and cut each token of `g` from index
      `i` on, in turn. */
  function CutAll(b: string, g: seq<Token>, i: nat): string
    decreases |g| - i
  {
    if i >= |g| then b else CutAll(Cut(b, g[i].text), g, i + 1)
  }

  lemma {:induction false} CutAllIsSuffix(b: string, g: seq<Token>, i: nat)
    ensures IsSuffix(CutAll(b, g, i), b)
    decreases |g| - i
  {
    if i >= |g| {
      assert b[|b| - |b|..] == b;
    } else {
      var b' := Cut(b, g[i].text);
      CutSpec(b, g[i].text);
      CutAllIsSuffix(b', g, i + 1);
      SuffixTransitive(CutAll(b', g, i + 1), b', b);
    }
  }

  /** How the retained buffer moves after emitting the group `g`: by the end
      offset of `g`'s last token, applied to the buffer as it is now, or by
      relocating every token of `g` in turn. (An empty group, which the loop
      never forms, moves nothing.) */
  function Advance(b: string, g: seq<Token>): string
  {
    if g == [] then b
    else
      match g[|g| - 1]
      case Offs(_, _, end) => SliceFrom(b, end)
      case Bare(_) => CutAll(b, g, 0)
  }

  lemma AdvanceIsSuffix(b: string, g: seq<Token>)
    ensures IsSuffix(Advance(b, g), b)
  {
    if g == [] {
      assert b[|b| - |b|..] == b;
    } else if g[|g| - 1].Bare? {
      CutAllIsSuffix(b, g, 0);
    }
  }

  /** The retained buffer after emitting each of `groups` in order. */
  function Consume(b: string, groups: seq<seq<Token>>): string
  {
    if groups == [] then b
    else Advance(Consume(b, groups[..|groups| - 1]), groups[|groups| - 1])
  }

  /** Emitting only ever cuts a prefix off the retained buffer. */
  lemma {:induction false} ConsumeIsSuffix(b: string, groups: seq<seq<Token>>)
    ensures IsSuffix(Consume(b, groups), b)
  {
    if groups == [] {
      assert b[|b| - |b|..] == b;
    } else {
      var m := Consume(b, groups[..|groups| - 1]);
      ConsumeIsSuffix(b, groups[..|groups| - 1]);
      AdvanceIsSuffix(m, groups[|groups| - 1]);
      SuffixTransitive(Advance(m, groups[|groups| - 1]), m, b);
    }
  }

  lemma {:induction false} ConsumeAppend(b: string, xs: seq<seq<Token>>, ys: seq<seq<Token>>)
    ensures Consume(b, xs + ys) == Consume(Consume(b, xs), ys)
    decreases |ys|
  {
    if ys == [] {
      assert xs + ys == xs;
    } else {
      var init := ys[..|ys| - 1];
      assert (xs + ys)[..|xs + ys| - 1] == xs + init;
      ConsumeAppend(b, xs, init);
    }
  }

  /** The loop of `push_text` over the tokens from index `i` on (the ones
      before `i` have been popped already), with `acc` the tokens accumulated
      since the last emission: the groups of tokens it emits, in order. The
      last token is never taken; a group is emitted as soon as its text is at
      least `minTokenLen` long. */
  function Scan(minTokenLen: int, tokens: seq<Token>, i: nat, acc: seq<Token>): seq<seq<Token>>
    decreases |tokens| - i
  {
    if |tokens| <= i + 1 then []
    else
      var g := acc + [tokens[i]];
      if |GroupText(g)| >= minTokenLen then [g] + Scan(minTokenLen, tokens, i + 1, [])
      else Scan(minTokenLen, tokens, i + 1, g)
  }

  /** The events for the emitted `groups`, in order, all under segment `id`. */
  function Emissions(groups: seq<seq<Token>>, id: nat): (es: seq<TokenData>)
    ensures |es| == |groups|
  {
    if groups == [] then []
    else Emissions(groups[..|groups| - 1], id) + [TokenData(GroupText(groups[|groups| - 1]), id)]
  }

  /** The `k`-th event for `groups` carries the text of the `k`-th group
      and the segment id `id`. */
  lemma {:induction false} EmissionsAt(groups: seq<seq<Token>>, id: nat)
    ensures forall k :: 0 <= k < |groups| ==>
      Emissions(groups, id)[k] == TokenData(GroupText(groups[k]), id)
  {
    if groups != [] {
      EmissionsAt(groups[..|groups| - 1], id);
    }
  }

  lemma {:induction false} EmissionsAppend(xs: seq<seq<Token>>, ys: seq<seq<Token>>, id: nat)
    ensures Emissions(xs + ys, id) == Emissions(xs, id) + Emissions(ys, id)
    decreases |ys|
  {
    if ys == [] {
      assert xs + ys == xs;
    } else {
      var init := ys[..|ys| - 1];
      assert (xs + ys)[..|xs + ys| - 1] == xs + init;
      EmissionsAppend(xs, init, id);
    }
  }

  /** Emitting `out` and then `rest` moves the buffer and extends the log
      exactly as emitting `out + rest` in one go. */
  lemma RemainingWork(b: string, log: seq<TokenData>, out: seq<seq<Token>>, rest: seq<seq<Token>>, id: nat)
    ensures Consume(Consume(b, out), rest) == Consume(b, out + rest)
    ensures (log + Emissions(out, id)) + Emissions(rest, id) == log + Emissions(out + rest, id)
  {
    ConsumeAppend(b, out, rest);
    LogAppend(log, out, rest, id);
  }

  lemma LogAppend(log: seq<TokenData>, out: seq<seq<Token>>, rest: seq<seq<Token>>, id: nat)
    ensures (log + Emissions(out, id)) + Emissions(rest, id) == log + Emissions(out + rest, id)
  {
    var eo, er := Emissions(out, id), Emissions(rest, id);
    EmissionsAppend(out, rest, id);
    assert (log + eo) + er == log + (eo + er);
  }

  function Flatten(gs: seq<seq<Token>>): seq<Token>
  {
    if gs == [] then [] else gs[0] + Flatten(gs[1..])
  }

  predicate IsPrefix(p: seq<Token>, s: seq<Token>)
  {
    |p| <= |s| && s[..|p|] == p
  }

  lemma GroupTextSnoc(g: seq<Token>, tok: Token)
    ensures GroupText(g + [tok]) == Append(GroupText(g), tok.text)
  {
    var ts := Texts(g + [tok]);
    assert ts[..|ts| - 1] == Texts(g);
  }

  /** Every group in `gs` is non-empty and its text is at least
      `minTokenLen` long. */
  predicate LongGroups(gs: seq<seq<Token>>, minTokenLen: int)
  {
    forall k :: 0 <= k < |gs| ==> gs[k] != [] && |GroupText(gs[k])| >= minTokenLen
  }

  /** Every emitted group is non-empty and its text is at least
      `minTokenLen` long. */
  lemma {:induction false} ScanEmitsLong(minTokenLen: int, tokens: seq<Token>, i: nat, acc: seq<Token>)
    ensures LongGroups(Scan(minTokenLen, tokens, i, acc), minTokenLen)
    decreases |tokens| - i
  {
    if |tokens| > i + 1 {
      var g := acc + [tokens[i]];
      if |GroupText(g)| >= minTokenLen {
        ScanEmitsLong(minTokenLen, tokens, i + 1, []);
        var gs := Scan(minTokenLen, tokens, i + 1, []);
        assert Scan(minTokenLen, tokens, i, acc) == [g] + gs;
        forall k | 0 <= k < |gs| + 1
          ensures ([g] + gs)[k] != [] && |GroupText(([g] + gs)[k])| >= minTokenLen
        {
          if k > 0 {
            assert ([g] + gs)[k] == gs[k - 1];
          } else {
            assert ([g] + gs)[k] == g && |g| > 0;
          }
        }
      } else {
        ScanEmitsLong(minTokenLen, tokens, i + 1, g);
        assert Scan(minTokenLen, tokens, i, acc) == Scan(minTokenLen, tokens, i + 1, g);
      }
    }
  }

  /** The last token is never consumed: with at most one token left nothing
      is emitted, and otherwise the emitted groups, put back together, are
      the accumulated tokens followed by the remaining tokens, in order, up
      to some point before the last one. */
  lemma {:induction false} ScanWithholdsLast(minTokenLen: int, tokens: seq<Token>, i: nat, acc: seq<Token>)
    ensures |tokens| <= i + 1 ==> Scan(minTokenLen, tokens, i, acc) == []
    ensures i < |tokens| ==>
      IsPrefix(Flatten(Scan(minTokenLen, tokens, i, acc)), acc + tokens[i..|tokens| - 1])
    decreases |tokens| - i
  {
    if |tokens| > i + 1 {
      var g := acc + [tokens[i]];
      assert g + tokens[i + 1..|tokens| - 1] == acc + tokens[i..|tokens| - 1];
      if |GroupText(g)| >= minTokenLen {
        ScanWithholdsLast(minTokenLen, tokens, i + 1, []);
        var gs := Scan(minTokenLen, tokens, i + 1, []);
        assert [] + tokens[i + 1..|tokens| - 1] == tokens[i + 1..|tokens| - 1];
        assert ([g] + gs)[1..] == gs;
        assert Flatten([g] + gs) == g + Flatten(gs);
      } else {
        ScanWithholdsLast(minTokenLen, tokens, i + 1, g);
      }
    }
  }

  /** No window `acc + tokens[i..k]` of the tokens `push_text` may still pop
      from index `i` on, the last token excluded, reaches `minTokenLen`. */
  predicate Quiet(minTokenLen: int, tokens: seq<Token>, i: nat, acc: seq<Token>)
  {
    forall k :: i < k < |tokens| ==> |GroupText(acc + tokens[i..k])| < minTokenLen
  }

  /** Peeling the first token off the windows: `g` is the accumulation with
      that token appended. */
  lemma ShiftWindows(minTokenLen: int, tokens: seq<Token>, i: nat, acc: seq<Token>, g: seq<Token>)
    requires i + 1 < |tokens| && g == acc + [tokens[i]]
    ensures Quiet(minTokenLen, tokens, i, acc) <==>
      |GroupText(g)| < minTokenLen && Quiet(minTokenLen, tokens, i + 1, g)
  {
    assert acc + tokens[i..i + 1] == g;
    forall k | i + 1 < k < |tokens| ensures g + tokens[i + 1..k] == acc + tokens[i..k] {
      assert tokens[i..k] == [tokens[i]] + tokens[i + 1..k];
    }
    if Quiet(minTokenLen, tokens, i, acc) {
      assert |GroupText(acc + tokens[i..i + 1])| < minTokenLen;
      var j := i + 1;
      forall k | j < k < |tokens| ensures |GroupText(g + tokens[j..k])| < minTokenLen {
        assert |GroupText(acc + tokens[i..k])| < minTokenLen;
      }
    }
    if |GroupText(g)| < minTokenLen && Quiet(minTokenLen, tokens, i + 1, g) {
      forall k | i < k < |tokens| ensures |GroupText(acc + tokens[i..k])| < minTokenLen {
        if k > i + 1 {
          assert |GroupText(g + tokens[i + 1..k])| < minTokenLen;
        }
      }
    }
  }

  /** `push_text` emits nothing exactly when no window is long enough. */
  lemma {:induction false} ScanEmitsIff(minTokenLen: int, tokens: seq<Token>, i: nat, acc: seq<Token>)
    ensures Scan(minTokenLen, tokens, i, acc) == [] <==> Quiet(minTokenLen, tokens, i, acc)
    decreases |tokens| - i
  {
    if |tokens| > i + 1 {
      var g := acc + [tokens[i]];
      ShiftWindows(minTokenLen, tokens, i, acc, g);
      if |GroupText(g)| < minTokenLen {
        ScanEmitsIff(minTokenLen, tokens, i + 1, g);
        assert Scan(minTokenLen, tokens, i, acc) == Scan(minTokenLen, tokens, i + 1, g);
      }
    }
  }

  /** No prefix of `g` longer than `from` tokens and shorter than `g` itself
      reaches `minTokenLen`: the group ends at the first token at which its
      accumulation is long enough. */
  predicate FirstReady(g: seq<Token>, from: nat, minTokenLen: int)
  {
    forall m :: from < m < |g| ==> |GroupText(g[..m])| < minTokenLen
  }

  /** Every emitted group is emitted as soon as it is long enough: the first
      one starts with the incoming accumulation `acc` and no longer prefix of
      it is long enough, and no proper non-empty prefix of a later group is
      long enough. */
  lemma {:induction false} ScanEmitsEarliest(minTokenLen: int, tokens: seq<Token>, i: nat, acc: seq<Token>)
    ensures Scan(minTokenLen, tokens, i, acc) != [] ==>
      && |acc| < |Scan(minTokenLen, tokens, i, acc)[0]|
      && Scan(minTokenLen, tokens, i, acc)[0][..|acc|] == acc
      && FirstReady(Scan(minTokenLen, tokens, i, acc)[0], |acc|, minTokenLen)
    ensures forall k :: 0 < k < |Scan(minTokenLen, tokens, i, acc)| ==>
      FirstReady(Scan(minTokenLen, tokens, i, acc)[k], 0, minTokenLen)
    decreases |tokens| - i
  {
    if |tokens| > i + 1 {
      var g := acc + [tokens[i]];
      if |GroupText(g)| >= minTokenLen {
        ScanEmitsEarliest(minTokenLen, tokens, i + 1, []);
        var gs := Scan(minTokenLen, tokens, i + 1, []);
        assert Scan(minTokenLen, tokens, i, acc) == [g] + gs;
        assert g[..|acc|] == acc;
        forall k | 0 < k < |gs| + 1 ensures FirstReady(([g] + gs)[k], 0, minTokenLen) {
          assert ([g] + gs)[k] == gs[k - 1];
        }
      } else {
        ScanEmitsEarliest(minTokenLen, tokens, i + 1, g);
        var gs := Scan(minTokenLen, tokens, i + 1, g);
        assert Scan(minTokenLen, tokens, i, acc) == gs;
        if gs != [] {
          var h := gs[0];
          assert h[..|g|] == g;
          assert h[..|acc|] == g[..|acc|] == acc;
          forall m | |acc| < m < |h| ensures |GroupText(h[..m])| < minTokenLen {
            if m == |g| {
              assert h[..m] == g;
            }
          }
        }
      }
    }
  }

  /** Once something is emitted, the tokens after the last emitted group,
      the withheld last token excluded, never add up to `minTokenLen`: the
      scan stops only when nothing more is ready. */
  lemma {:induction false} ScanLeavesQuiet(minTokenLen: int, tokens: seq<Token>, i: nat, acc: seq<Token>)
    ensures Scan(minTokenLen, tokens, i, acc) != [] ==>
      && |acc| <= |Flatten(Scan(minTokenLen, tokens, i, acc))|
      && Quiet(minTokenLen, tokens, i + |Flatten(Scan(minTokenLen, tokens, i, acc))| - |acc|, [])
    decreases |tokens| - i
  {
    if |tokens| > i + 1 {
      var g := acc + [tokens[i]];
      if |GroupText(g)| >= minTokenLen {
        ScanLeavesQuiet(minTokenLen, tokens, i + 1, []);
        var gs := Scan(minTokenLen, tokens, i + 1, []);
        assert Scan(minTokenLen, tokens, i, acc) == [g] + gs;
        assert ([g] + gs)[1..] == gs;
        assert Flatten([g] + gs) == g + Flatten(gs);
        if gs == [] {
          ScanEmitsIff(minTokenLen, tokens, i + 1, []);
        }
      } else {
        ScanLeavesQuiet(minTokenLen, tokens, i + 1, g);
        assert Scan(minTokenLen, tokens, i, acc) == Scan(minTokenLen, tokens, i + 1, g);
      }
    }
  }

  /** The buffer left behind by a `push_text` and the groups of tokens it
      emits. */
  datatype PushResult = PushResult(rest: string, groups: seq<seq<Token>>)

  /** What `push_text` does on an open stream whose buffer is `b`. */
  function Push(tokenize: Tokenizer, minTokenLen: int, minCtxLen: int, b: string, text: string): PushResult
  {
    var nb := b + text;
    if |nb| < minCtxLen then PushResult(nb, [])
    else
      var gs := Scan(minTokenLen, tokenize(nb), 0, []);
      PushResult(Consume(nb, gs), gs)
  }

  /** Below the context threshold, or when the tokenizer returns at most
      one token, `push_text` only appends the text; in every case it leaves
      a suffix of the old buffer followed by the text. */
  lemma PushOnlyCutsPrefix(tokenize: Tokenizer, minTokenLen: int, minCtxLen: int, b: string, text: string)
    ensures IsSuffix(Push(tokenize, minTokenLen, minCtxLen, b, text).rest, b + text)
    ensures |b + text| < minCtxLen ==>
      Push(tokenize, minTokenLen, minCtxLen, b, text) == PushResult(b + text, [])
    ensures |tokenize(b + text)| <= 1 ==>
      Push(tokenize, minTokenLen, minCtxLen, b, text) == PushResult(b + text, [])
  {
    var nb := b + text;
    if |nb| >= minCtxLen {
      ConsumeIsSuffix(nb, Scan(minTokenLen, tokenize(nb), 0, []));
      ScanWithholdsLast(minTokenLen, tokenize(nb), 0, []);
    } else {
      assert nb[|nb| - |nb|..] == nb;
    }
  }

  /** What `push_text` emits: something exactly when some run of leading
      tokens (not the last one) is long enough; only groups that are long
      enough; and the tokenizer's tokens in order, never the last one. */
  lemma PushEmits(tokenize: Tokenizer, minTokenLen: int, minCtxLen: int, b: string, text: string)
    ensures |b + text| >= minCtxLen ==>
      (Push(tokenize, minTokenLen, minCtxLen, b, text).groups == [] <==>
        forall k :: 0 < k < |tokenize(b + text)| ==> |GroupText(tokenize(b + text)[..k])| < minTokenLen)
    ensures LongGroups(Push(tokenize, minTokenLen, minCtxLen, b, text).groups, minTokenLen)
    ensures |b + text| >= minCtxLen && |tokenize(b + text)| >= 1 ==>
      IsPrefix(Flatten(Push(tokenize, minTokenLen, minCtxLen, b, text).groups),
               tokenize(b + text)[..|tokenize(b + text)| - 1])
  {
    var nb := b + text;
    var toks := tokenize(nb);
    if |nb| >= minCtxLen {
      ScanEmitsLong(minTokenLen, toks, 0, []);
      ScanWithholdsLast(minTokenLen, toks, 0, []);
      ScanEmitsIff(minTokenLen, toks, 0, []);
      forall k | 0 < k < |toks| ensures [] + toks[0..k] == toks[..k] { }
      if |toks| >= 1 {
        assert [] + toks[0..|toks| - 1] == toks[..|toks| - 1];
      }
    }
  }

  /** A push emits each group as soon as it is long enough, and stops only
      when the tokens after the last emitted group, the withheld last token
      excluded, no longer add up to `minTokenLen`. */
  lemma PushEmitsEarliest(tokenize: Tokenizer, minTokenLen: int, minCtxLen: int, b: string, text: string)
    ensures forall k :: 0 <= k < |Push(tokenize, minTokenLen, minCtxLen, b, text).groups| ==>
      FirstReady(Push(tokenize, minTokenLen, minCtxLen, b, text).groups[k], 0, minTokenLen)
    ensures Push(tokenize, minTokenLen, minCtxLen, b, text).groups != [] ==>
      Quiet(minTokenLen, tokenize(b + text), |Flatten(Push(tokenize, minTokenLen, minCtxLen, b, text).groups)|, [])
  {
    var nb := b + text;
    if |nb| >= minCtxLen {
      var toks := tokenize(nb);
      var gs := Scan(minTokenLen, toks, 0, []);
      assert Push(tokenize, minTokenLen, minCtxLen, b, text).groups == gs;
      ScanEmitsEarliest(minTokenLen, toks, 0, []);
      ScanLeavesQuiet(minTokenLen, toks, 0, []);
    }
  }

  /** Every event a `push_text` appends has a token at least `minTokenLen`
      long and carries the segment id it was emitted under. */
  lemma PushedEventsLong(tokenize: Tokenizer, minTokenLen: int, minCtxLen: int, b: string, text: string, id: nat)
    ensures forall e :: e in Emissions(Push(tokenize, minTokenLen, minCtxLen, b, text).groups, id) ==>
      |e.token| >= minTokenLen && e.segmentId == id
  {
    var gs := Push(tokenize, minTokenLen, minCtxLen, b, text).groups;
    PushEmits(tokenize, minTokenLen, minCtxLen, b, text);
    EmissionsAt(gs, id);
    forall e | e in Emissions(gs, id) ensures |e.token| >= minTokenLen && e.segmentId == id {
      var k :| 0 <= k < |gs| && Emissions(gs, id)[k] == e;
    }
  }

  /** The flush text of a non-empty token list splits back into the token
      texts at single spaces, as long as no token text contains a space. */
  lemma FlushTextSplits(toks: seq<Token>, raw: string)
    requires toks != []
    requires forall k :: 0 <= k < |toks| ==> ' ' !in toks[k].text
    ensures SplitSpace(FlushText(toks, raw)) == Texts(toks)
  {
    SplitJoin(Texts(toks));
  }

  /** The text of a group holding a single token is that token's text. */
  lemma GroupTextSingle(tok: Token)
    ensures GroupText([tok]) == tok.text
  {
    assert Texts([tok]) == [tok.text];
    assert [tok.text][..0] == [];
    assert Accumulate([tok.text]) == Append(Accumulate([]), tok.text);
  }

  /** Three bare tokens "ab", "cd", "ef" with `minTokenLen` 4: "ab" alone is
      too short, "ab cd" is emitted, and "ef" is withheld as the last token. */
  lemma ExampleBareScan()
    ensures Scan(4, [Bare("ab"), Bare("cd"), Bare("ef")], 0, []) == [[Bare("ab"), Bare("cd")]]
  {
    var ts := [Bare("ab"), Bare("cd"), Bare("ef")];
    GroupTextSingle(Bare("ab"));
    assert [] + [ts[0]] == [Bare("ab")];
    assert Scan(4, ts, 0, []) == Scan(4, ts, 1, [Bare("ab")]);
    GroupTextSnoc([Bare("ab")], Bare("cd"));
    assert [Bare("ab")] + [ts[1]] == [Bare("ab"), Bare("cd")];
    assert GroupText([Bare("ab"), Bare("cd")]) == "ab cd";
    assert Scan(4, ts, 1, [Bare("ab")]) == [[Bare("ab"), Bare("cd")]] + Scan(4, ts, 2, []);
  }

  /** When the buffer starts with `t`, a single space and then something
      that does not start with whitespace, relocating `t` cuts exactly
      `t` and the space. */
  lemma CutAtFront(b: string, t: string, rest: string)
    requires b == t + " " + rest
    requires rest == [] || !IsSpace(rest[0])
    ensures Cut(b, t) == rest
  {
    assert b[0..|t|] == t;
    assert OccursAt(b, t, 0);
    FindIsFirst(b, t);
    assert SliceFrom(b, |t|) == " " + rest;
    assert SpaceRun(" " + rest, 0) == SpaceRun(" " + rest, 1) == 1;
    assert (" " + rest)[1..] == rest;
  }

  /** The bare-text path consumes exactly what it emitted: when the buffer
      starts with the texts of `g` from index `i` on, joined by single
      spaces, followed by one more space, relocating those texts in turn
      leaves exactly the rest, as long as no text and not the rest starts
      with whitespace. */
  lemma {:induction false} CutAllFront(g: seq<Token>, i: nat, rest: string)
    requires i < |g|
    requires forall k :: i <= k < |g| ==> g[k].text != [] && !IsSpace(g[k].text[0])
    requires rest == [] || !IsSpace(rest[0])
    ensures CutAll(JoinSpace(Texts(g)[i..]) + " " + rest, g, i) == rest
    decreases |g| - i
  {
    var ts := Texts(g)[i..];
    var t := g[i].text;
    if i + 1 == |g| {
      assert JoinSpace(ts) == t;
      CutAtFront(t + " " + rest, t, rest);
      assert CutAll(t + " " + rest, g, i) == CutAll(rest, g, i + 1);
    } else {
      assert ts[1..] == Texts(g)[i + 1..];
      var tail := JoinSpace(ts[1..]) + " " + rest;
      assert JoinSpace(ts) == t + " " + JoinSpace(ts[1..]);
      assert tail[0] == g[i + 1].text[0];
      assert JoinSpace(ts) + " " + rest == t + " " + tail;
      CutAtFront(t + " " + tail, t, tail);
      CutAllFront(g, i + 1, rest);
    }
  }

  /** Emitting the group "ab cd" from the buffer "ab cd ef" relocates both
      token texts in turn and keeps only "ef". */
  lemma ExampleBareConsume()
    ensures Consume("ab cd ef", [[Bare("ab"), Bare("cd")]]) == "ef"
  {
    var g := [Bare("ab"), Bare("cd")];
    assert Texts(g)[0..] == ["ab", "cd"];
    assert JoinSpace(["ab", "cd"]) + " " + "ef" == "ab cd ef";
    CutAllFront(g, 0, "ef");
    assert [g][..0] == [];
  }

  /** On the offset path the end offset of a later emission is applied to
      the buffer as already cut by the earlier one: over "ab cd ef" with
      `minTokenLen` 1, cutting at 2 after "ab" leaves " cd ef", and then
      cutting that at 5 after "cd" leaves "f", not " ef". */
  lemma ExampleOffsetsScan()
    ensures Scan(1, [Offs("ab", 0, 2), Offs("cd", 3, 5), Offs("ef", 6, 8)], 0, [])
      == [[Offs("ab", 0, 2)], [Offs("cd", 3, 5)]]
  {
    var ts := [Offs("ab", 0, 2), Offs("cd", 3, 5), Offs("ef", 6, 8)];
    GroupTextSingle(ts[0]);
    GroupTextSingle(ts[1]);
    assert [] + [ts[0]] == [ts[0]];
    assert [] + [ts[1]] == [ts[1]];
    assert Scan(1, ts, 1, []) == [[ts[1]]] + Scan(1, ts, 2, []);
    assert Scan(1, ts, 0, []) == [[ts[0]]] + Scan(1, ts, 1, []);
  }

  lemma ExampleOffsetsConsume()
    ensures Consume("ab cd ef", [[Offs("ab", 0, 2)], [Offs("cd", 3, 5)]]) == "f"
  {
  }

  /** Mode names used in the use-after-close message. */
  const TokenStreamName := "livekit.agents.tokenize.token_stream.BufferedTokenStream"
  const SentenceStreamName := "livekit.agents.tokenize.token_stream.BufferedSentenceStream"
  const WordStreamName := "livekit.agents.tokenize.token_stream.BufferedWordStream"

  /** The buffered token stream. The event channel is the append-only log
      `events` with its `closed` flag; segment ids are drawn from a counter. */
  class BufferedTokenStream {
    const tokenizeFnc: Tokenizer
    const minTokenLen: int
    const minCtxLen: int
    /** The module-qualified name of the stream's class. */
    const className: string

    var buf: string
    var currentSegmentId: nat
    var events: seq<TokenData>
    var closed: bool

    /** The tokenizer keeps to its declared type, and no event carries a
        segment id newer than the current one. */
    ghost predicate Valid()
      reads this
    {
      && UniformTokenizer(tokenizeFnc)
      && forall i :: 0 <= i < |events| ==> events[i].segmentId <= currentSegmentId
    }

    function ClosedMessage(): string
      reads this
    {
      className + " is closed"
    }

    constructor (tokenizeFnc: Tokenizer, minTokenLen: int, minCtxLen: int)
      requires UniformTokenizer(tokenizeFnc)
      ensures Valid()
      ensures this.tokenizeFnc == tokenizeFnc && this.minTokenLen == minTokenLen && this.minCtxLen == minCtxLen
      ensures className == TokenStreamName
      ensures buf == "" && events == [] && !closed
    {
      this.tokenizeFnc := tokenizeFnc;
      this.minTokenLen := minTokenLen;
      this.minCtxLen := minCtxLen;
      className := TokenStreamName;
      buf := "";
      currentSegmentId := 0;
      events := [];
      closed := false;
    }

    /** The sentence-mode preset: the same engine under its own class name. */
    constructor Sentence(tokenizer: Tokenizer, minTokenLen: int, minCtxLen: int)
      requires UniformTokenizer(tokenizer)
      ensures Valid()
      ensures tokenizeFnc == tokenizer && this.minTokenLen == minTokenLen && this.minCtxLen == minCtxLen
      ensures className == SentenceStreamName
      ensures buf == "" && events == [] && !closed
    {
      tokenizeFnc := tokenizer;
      this.minTokenLen := minTokenLen;
      this.minCtxLen := minCtxLen;
      className := SentenceStreamName;
      buf := "";
      currentSegmentId := 0;
      events := [];
      closed := false;
    }

    /** The word-mode preset: the same engine under its own class name. */
    constructor Word(tokenizer: Tokenizer, minTokenLen: int, minCtxLen: int)
      requires UniformTokenizer(tokenizer)
      ensures Valid()
      ensures tokenizeFnc == tokenizer && this.minTokenLen == minTokenLen && this.minCtxLen == minCtxLen
      ensures className == WordStreamName
      ensures buf == "" && events == [] && !closed
    {
      tokenizeFnc := tokenizer;
      this.minTokenLen := minTokenLen;
      this.minCtxLen := minCtxLen;
      className := WordStreamName;
      buf := "";
      currentSegmentId := 0;
      events := [];
      closed := false;
    }

    /** Appends `text` and emits every group of tokens that has enough
        context after it. */
    method PushText(text: string) returns (st: Status)
      requires Valid()
      modifies this
      ensures Valid() && closed == old(closed) && currentSegmentId == old(currentSegmentId)
      ensures old(closed) ==> st == Closed(ClosedMessage()) && unchanged(this)
      ensures !old(closed) ==> st == Ok
      ensures !old(closed) ==>
        var r := Push(tokenizeFnc, minTokenLen, minCtxLen, old(buf), text);
        buf == r.rest && events == old(events) + Emissions(r.groups, currentSegmentId)
      ensures !old(closed) && |old(buf) + text| < minCtxLen ==> buf == old(buf) + text && events == old(events)
    {
      if closed {
        return Closed(ClosedMessage());
      }
      buf := buf + text;
      if |buf| < minCtxLen {
        return Ok;
      }
      var tokens := tokenizeFnc(buf);
      EmitReady(tokens);
      st := Ok;
    }

    /** The loop of `push_text` over a fresh tokenization of the buffer:
        pops tokens from the front, never the last one, accumulates their
        texts and emits the accumulation under the current segment id as soon
        as it is long enough, moving the buffer past it each time. */
    method EmitReady(tokens: seq<Token>)
      requires Valid() && !closed
      modifies this`buf, this`events
      ensures Valid()
      ensures var gs := Scan(minTokenLen, tokens, 0, []);
        buf == Consume(old(buf), gs) && events == old(events) + Emissions(gs, currentSegmentId)
    {
      ghost var total := Scan(minTokenLen, tokens, 0, []);
      ghost var finalBuf := Consume(buf, total);
      ghost var finalEvents := events + Emissions(total, currentSegmentId);
      var i := 0;
      var bufToks: seq<Token> := [];
      var acc := "";
      while |tokens| - i > 1
        modifies this`buf, this`events
        invariant Valid()
        invariant i <= |tokens|
        invariant acc == GroupText(bufToks)
        invariant Consume(buf, Scan(minTokenLen, tokens, i, bufToks)) == finalBuf
        invariant events + Emissions(Scan(minTokenLen, tokens, i, bufToks), currentSegmentId) == finalEvents
        decreases |tokens| - i
      {
        bufToks, acc := Round(tokens, i, bufToks, acc);
        i := i + 1;
      }
      ScanWithholdsLast(minTokenLen, tokens, i, bufToks);
      assert Emissions([], currentSegmentId) == [];
    }

    /** One round of the `push_text` loop, popping the token at index `i`:
        appends its text to the accumulation `acc` of `bufToks`, and when the
        accumulation is long enough emits it, moves the buffer past it and
        starts a new accumulation. Either way, what is left to emit from the
        new state, added to what this round emitted, is what was left to
        emit before it. */
    method Round(tokens: seq<Token>, i: nat, bufToks: seq<Token>, acc: string)
      returns (bufToks': seq<Token>, acc': string)
      requires Valid() && !closed
      requires i + 1 < |tokens| && acc == GroupText(bufToks)
      modifies this`buf, this`events
      ensures Valid()
      ensures acc' == GroupText(bufToks')
      ensures Consume(buf, Scan(minTokenLen, tokens, i + 1, bufToks')) ==
        Consume(old(buf), Scan(minTokenLen, tokens, i, bufToks))
      ensures events + Emissions(Scan(minTokenLen, tokens, i + 1, bufToks'), currentSegmentId) ==
        old(events) + Emissions(Scan(minTokenLen, tokens, i, bufToks), currentSegmentId)
    {
      var tok := tokens[i];
      acc' := acc;
      if acc' != "" {
        acc' := acc' + " ";
      }
      acc' := acc' + tok.text;
      GroupTextSnoc(bufToks, tok);
      bufToks' := bufToks + [tok];
      if |acc'| >= minTokenLen {
        events := events + [TokenData(acc', currentSegmentId)];
        AdvancePast(bufToks');
        ghost var out := [bufToks'];
        assert Emissions(out, currentSegmentId) == [TokenData(acc', currentSegmentId)];
        assert Consume(old(buf), out) == Advance(old(buf), bufToks');
        bufToks' := [];
        acc' := "";
        RemainingWork(old(buf), old(events), out, Scan(minTokenLen, tokens, i + 1, []), currentSegmentId);
      } else {
        assert Scan(minTokenLen, tokens, i, bufToks) == Scan(minTokenLen, tokens, i + 1, bufToks');
      }
    }

    /** Moves the retained buffer past the emitted group `g`: by the end
        offset of its last token, or by relocating each of its tokens in
        turn. */
    method AdvancePast(g: seq<Token>)
      requires g != [] && !closed
      modifies this`buf
      ensures buf == Advance(old(buf), g)
    {
      match g[|g| - 1] {
        case Offs(_, _, end) =>
          buf := SliceFrom(buf, end);
        case Bare(_) =>
          Relocate(g);
      }
    }

    /** The bare-text path: relocates each token of `g` in turn. */
    method Relocate(g: seq<Token>)
      requires !closed
      modifies this`buf
      ensures buf == CutAll(old(buf), g, 0)
    {
      for i := 0 to |g|
        invariant CutAll(buf, g, i) == CutAll(old(buf), g, 0)
      {
        CutPast(g[i].text);
      }
    }

    /** One relocation step: finds `t` in the buffer (position 0 when it is
        not there), cuts the buffer just after it and strips leading
        whitespace. */
    method CutPast(t: string)
      requires !closed
      modifies this`buf
      ensures buf == Cut(old(buf), t)
    {
      var at := Max(Find(buf, t), 0);
      buf := LStrip(SliceFrom(buf, at + |t|));
    }

    /** Emits whatever is retained as one event, then starts a new segment. */
    method Flush() returns (st: Status)
      requires Valid()
      modifies this
      ensures Valid() && closed == old(closed)
      ensures old(closed) ==> st == Closed(ClosedMessage()) && unchanged(this)
      ensures !old(closed) ==> st == Ok && buf == ""
      ensures !old(closed) && old(buf) == "" ==>
        events == old(events) && currentSegmentId == old(currentSegmentId)
      ensures !old(closed) && old(buf) != "" ==>
        && events == old(events) + [TokenData(FlushText(tokenizeFnc(old(buf)), old(buf)), old(currentSegmentId))]
        && currentSegmentId > old(currentSegmentId)
        && forall i :: 0 <= i < |events| ==> events[i].segmentId < currentSegmentId
    {
      if closed {
        return Closed(ClosedMessage());
      }
      if buf != "" {
        var tokens := tokenizeFnc(buf);
        var out: string;
        if tokens != [] {
          out := JoinSpace(Texts(tokens));
        } else {
          out := buf;
        }
        events := events + [TokenData(out, currentSegmentId)];
        currentSegmentId := currentSegmentId + 1;
      }
      buf := "";
      st := Ok;
    }

    /** Flushes, then closes the stream for good. */
    method EndInput() returns (st: Status)
      requires Valid()
      modifies this
      ensures Valid() && closed
      ensures old(closed) ==> st == Closed(ClosedMessage()) && unchanged(this)
      ensures !old(closed) ==> st == Ok && buf == ""
      ensures !old(closed) && old(buf) == "" ==>
        events == old(events) && currentSegmentId == old(currentSegmentId)
      ensures !old(closed) && old(buf) != "" ==>
        && events == old(events) + [TokenData(FlushText(tokenizeFnc(old(buf)), old(buf)), old(currentSegmentId))]
        && currentSegmentId > old(currentSegmentId)
    {
      st := Flush();
      if st.Closed? {
        return;
      }
      closed := true;
    }

    /** Closes the stream without flushing: whatever is retained is dropped
        from the output. */
    method Aclose()
      requires Valid()
      modifies this
      ensures Valid() && closed
      ensures buf == old(buf) && events == old(events) && currentSegmentId == old(currentSegmentId)
    {
      closed := true;
    }
  }
}
