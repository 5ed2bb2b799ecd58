# Buffered token stream

A Dafny model of LiveKit Agents' `BufferedTokenStream`
(`livekit/agents/tokenize/token_stream.py`). This is the incremental
segmentation buffer behind the sentence and word streams. Text arrives in
chunks through `push_text` and is appended to a retained buffer. Once the
buffer holds at least `min_ctx_len` characters, an injected batch tokenizer
is re-run over the whole buffer.

The tokens are popped from the front, and the last one is never popped,
because the tokenizer may still revise it when more text arrives. Their
texts are accumulated, joined by single spaces. As soon as the
accumulation is at least `min_token_len` long, it is emitted as a
`TokenData(token, segment_id)` event, and the buffer is moved past it:

- When the tokenizer returns `(text, start, end)` triples, the buffer is
  cut at the `end` offset of the last popped token.
- When it returns bare strings, each accumulated text in turn is located
  with `str.find`, falling back to position 0 when it is not found. The
  buffer is cut just after it, and leading whitespace is stripped.

`flush` emits whatever is retained as one event. That event is the
tokenizer's texts joined by single spaces, or the raw buffer when the
tokenizer finds nothing. `flush` then empties the buffer and starts a new
segment id. `end_input` flushes and closes the stream. `aclose` closes it
without flushing. Pushing or flushing a closed stream fails with
`"<module>.<class> is closed"`.

The model has two modules:

- `PyStr` (`py_str.dfy`) holds the Python string operations the stream
  relies on, with Python's semantics:
  - slicing past the end;
  - `str.find`, with -1 for "not found" and 0 for an empty needle;
  - `lstrip()` with Python's `isspace` table;
  - `" ".join`, and `split(" ")` as the inverse of the join.

  It also proves that the push loop's accumulator equals the single-space
  join of the texts once their leading empty texts are dropped, so equals
  the plain join whenever the first text is not empty. For example,
  `["", "a"]` accumulates to `"a"`, while `" ".join` gives `" a"`.
- `TokenStream` (`token_stream.dfy`) holds the rest:
  - the data types;
  - specification functions for one `push_text` round: `Scan` gives the
    groups of tokens emitted, `Consume` the buffer that is left, and
    `Emissions` the events;
  - lemmas about those functions;
  - the class `BufferedTokenStream`. It holds the mutable state `buf`,
    `currentSegmentId`, the event log `events` and the `closed` flag. Its
    methods are proved against those functions.

On the offset path, the code applies the `end` offset of a later emission
to the buffer as already cut by the earlier emission in the same call,
although that offset indexes the text the tokenizer saw. The model follows
the code as written. `ExampleOffsetsScan` and `ExampleOffsetsConsume` show
the effect: over `"ab cd ef"` with `min_token_len` 1, the retained buffer
ends as `"f"`.

## Model

| member | source | states |
|---|---|---|
| PyStr.SliceFrom | livekit-agents/livekit/agents/tokenize/token_stream.py:60 | `s[j:]` with `j` past the end is empty, otherwise it keeps `len(s) - j` characters |
| PyStr.Find | livekit-agents/livekit/agents/tokenize/token_stream.py:63 | `find` returns -1 or an index at which the needle fits inside the buffer |
| PyStr.FindFrom | livekit-agents/livekit/agents/tokenize/token_stream.py:63 | searching from index `k` returns -1 or an index `>= k` at which the needle fits |
| PyStr.MatchFromSpec | livekit-agents/livekit/agents/tokenize/token_stream.py:63 | the character-by-character match from index `j` holds iff every later character of the needle equals the buffer character at that offset |
| PyStr.MatchIsOccurrence | livekit-agents/livekit/agents/tokenize/token_stream.py:63 | the match test at `k` holds iff the needle occurs as a slice at `k` |
| PyStr.FindFromIsFirst | livekit-agents/livekit/agents/tokenize/token_stream.py:63 | searching from `k`: -1 means no occurrence at or after `k`; otherwise the result is an occurrence with none between `k` and it |
| PyStr.FindIsFirst | livekit-agents/livekit/agents/tokenize/token_stream.py:63 | `find` is -1 iff the needle occurs nowhere; otherwise it returns the first occurrence |
| PyStr.SpaceRun | livekit-agents/livekit/agents/tokenize/token_stream.py:64 | the run of whitespace starting at `i` ends within the string, not before `i` |
| PyStr.SpaceRunSpec | livekit-agents/livekit/agents/tokenize/token_stream.py:64 | the run covers only whitespace and stops at the end or at a non-whitespace character |
| PyStr.LStripSpec | livekit-agents/livekit/agents/tokenize/token_stream.py:64 | `lstrip()` keeps a suffix, drops only whitespace, and what it keeps does not start with whitespace |
| PyStr.IsSpace | livekit-agents/livekit/agents/tokenize/token_stream.py:64 | definition: Python's `str.isspace` for one character, the set of characters a bare `lstrip()` removes; specified by LStripSpec |
| PyStr.LStrip | livekit-agents/livekit/agents/tokenize/token_stream.py:64 | definition: `s.lstrip()` as the slice after the leading whitespace run; specified by LStripSpec |
| PyStr.JoinSpace | livekit-agents/livekit/agents/tokenize/token_stream.py:76-78 | definition: `" ".join(ts)`; specified by SplitJoin, JoinSpaceSnoc and JoinSpaceNonEmpty |
| PyStr.Append | livekit-agents/livekit/agents/tokenize/token_stream.py:44-52 | definition: one step of the push accumulator, a space before the new text only when something was accumulated; specified by AccumulateIsJoin |
| PyStr.Accumulate | livekit-agents/livekit/agents/tokenize/token_stream.py:44-52 | definition: the push accumulator after appending each text in order; specified by AccumulateIsJoin and AccumulateIsJoinWhenFirstNonEmpty |
| PyStr.SplitSpace | livekit-agents/livekit/agents/tokenize/token_stream.py:76-78 | splitting at single spaces, the inverse used for the join, always yields at least one piece |
| PyStr.NoSpaceNotFound | livekit-agents/livekit/agents/tokenize/token_stream.py:76-78 | a string without a space has no space for `find` to find |
| PyStr.SplitJoin | livekit-agents/livekit/agents/tokenize/token_stream.py:76-78 | splitting `" ".join(ts)` at single spaces gives back `ts` when no piece contains a space |
| PyStr.SuffixTransitive | livekit-agents/livekit/agents/tokenize/token_stream.py:62-64 | cutting a prefix off something that was already cut from `b` still leaves a suffix of `b` |
| PyStr.DropLeadingEmpty | livekit-agents/livekit/agents/tokenize/token_stream.py:44-52 | after dropping the leading empty texts, the list is empty or starts with a non-empty text |
| PyStr.DropLeadingEmptySnoc | livekit-agents/livekit/agents/tokenize/token_stream.py:44-52 | dropping leading empty texts commutes with appending a text, unless everything before it was dropped |
| PyStr.JoinSpaceSnoc | livekit-agents/livekit/agents/tokenize/token_stream.py:44-52 | joining a non-empty list with one more text appends a space and that text |
| PyStr.JoinSpaceNonEmpty | livekit-agents/livekit/agents/tokenize/token_stream.py:44-52 | a join whose first text is not empty is not empty |
| PyStr.AccumulateIsJoin | livekit-agents/livekit/agents/tokenize/token_stream.py:44-52 | the push accumulator (a space only when something was accumulated) equals `" ".join` of the texts after their leading empty texts are dropped |
| PyStr.AccumulateIsJoinWhenFirstNonEmpty | livekit-agents/livekit/agents/tokenize/token_stream.py:44-52 | when the first text is not empty, the accumulator is exactly the single-space join, in order |
| TokenStream.Texts | livekit-agents/livekit/agents/tokenize/token_stream.py:48-50 | each token contributes one text, so there are as many texts as tokens |
| TokenStream.GroupText | livekit-agents/livekit/agents/tokenize/token_stream.py:44-52 | definition: the accumulated text of a group of popped tokens; specified by GroupTextSnoc, GroupTextSingle and AccumulateIsJoin |
| TokenStream.FlushText | livekit-agents/livekit/agents/tokenize/token_stream.py:72-80 | definition: the flushed text, the single-space join of the token texts or the raw buffer when there are no tokens; specified by FlushTextSplits and used in Flush's contract |
| TokenStream.Cut | livekit-agents/livekit/agents/tokenize/token_stream.py:63-64 | definition: one relocation step, `buf[max(buf.find(t), 0) + len(t):].lstrip()`; specified by CutSpec and CutAtFront |
| TokenStream.CutAll | livekit-agents/livekit/agents/tokenize/token_stream.py:62-64 | definition: relocation steps for each text of a group in turn; specified by CutAllIsSuffix and CutAllFront |
| TokenStream.Advance | livekit-agents/livekit/agents/tokenize/token_stream.py:59-64 | definition: moving the buffer past one emitted group, by the last token's end offset or by relocation; specified by AdvanceIsSuffix |
| TokenStream.Consume | livekit-agents/livekit/agents/tokenize/token_stream.py:43-67 | definition: the buffer after moving past each emitted group in order; specified by ConsumeIsSuffix and ConsumeAppend |
| TokenStream.Scan | livekit-agents/livekit/agents/tokenize/token_stream.py:43-57 | definition: the groups the push loop emits; specified by ScanEmitsLong, ScanWithholdsLast, ScanEmitsIff, ScanEmitsEarliest and ScanLeavesQuiet, which together determine it |
| TokenStream.Quiet | livekit-agents/livekit/agents/tokenize/token_stream.py:43-54 | definition: no accumulation of the tokens from an index on, the last one excluded, reaches `min_token_len`; used by ScanEmitsIff and ScanLeavesQuiet |
| TokenStream.FirstReady | livekit-agents/livekit/agents/tokenize/token_stream.py:54 | definition: no prefix of a group longer than a given length, other than the group itself, reaches `min_token_len`; used by ScanEmitsEarliest |
| TokenStream.Push | livekit-agents/livekit/agents/tokenize/token_stream.py:32-64 | definition: the buffer and the emitted groups of one push on an open stream; specified by PushOnlyCutsPrefix, PushEmits, PushEmitsEarliest and PushedEventsLong |
| TokenStream.CutSpec | livekit-agents/livekit/agents/tokenize/token_stream.py:63-64 | one relocation step keeps a suffix of the buffer that does not start with whitespace. It cuts right after the first occurrence of the text when there is one. Everything between the cut and what is kept is whitespace |
| TokenStream.CutAllIsSuffix | livekit-agents/livekit/agents/tokenize/token_stream.py:62-64 | relocating every accumulated text in turn only removes a prefix of the buffer |
| TokenStream.AdvanceIsSuffix | livekit-agents/livekit/agents/tokenize/token_stream.py:59-64 | moving past an emitted group, by the last end offset or by relocation, only removes a prefix of the buffer |
| TokenStream.ConsumeIsSuffix | livekit-agents/livekit/agents/tokenize/token_stream.py:43-67 | after any sequence of emissions, the buffer is a suffix of the buffer before them |
| TokenStream.ConsumeAppend | livekit-agents/livekit/agents/tokenize/token_stream.py:43-67 | moving the buffer past two runs of emissions is moving it past the first run and then past the second |
| TokenStream.Emissions | livekit-agents/livekit/agents/tokenize/token_stream.py:55-57 | there is one event per emitted group |
| TokenStream.EmissionsAt | livekit-agents/livekit/agents/tokenize/token_stream.py:55-57 | the k-th event carries the joined text of the k-th group and the segment id it was emitted under |
| TokenStream.EmissionsAppend | livekit-agents/livekit/agents/tokenize/token_stream.py:43-67 | the events of two runs of groups are the first run's events followed by the second's |
| TokenStream.LogAppend | livekit-agents/livekit/agents/tokenize/token_stream.py:43-67 | appending the events of two runs to the log one after the other is appending the events of both runs together |
| TokenStream.RemainingWork | livekit-agents/livekit/agents/tokenize/token_stream.py:43-67 | the buffer and the log after one emission plus the rest of the loop equal those after all of the loop's emissions |
| TokenStream.GroupTextSnoc | livekit-agents/livekit/agents/tokenize/token_stream.py:44-52 | popping one more token extends the accumulation by a space (only if it was non-empty) and the token's text |
| TokenStream.GroupTextSingle | livekit-agents/livekit/agents/tokenize/token_stream.py:44-52 | the accumulation of a single token is its text |
| TokenStream.ScanEmitsLong | livekit-agents/livekit/agents/tokenize/token_stream.py:54-57 | every emitted group is non-empty and its joined text is at least `min_token_len` long |
| TokenStream.ScanWithholdsLast | livekit-agents/livekit/agents/tokenize/token_stream.py:43 | with at most one token left nothing is emitted. The emitted groups, flattened, are a prefix of the tokens before the last one, in order |
| TokenStream.ScanEmitsEarliest | livekit-agents/livekit/agents/tokenize/token_stream.py:43-57 | each group is emitted as soon as it is long enough. The first group starts with the incoming accumulation, and no longer proper prefix of it reaches `min_token_len`; no proper non-empty prefix of a later group does |
| TokenStream.ScanLeavesQuiet | livekit-agents/livekit/agents/tokenize/token_stream.py:43-57 | once something is emitted, no run of tokens after the last emitted group, the withheld last token excluded, reaches `min_token_len` |
| TokenStream.ShiftWindows | livekit-agents/livekit/agents/tokenize/token_stream.py:43-54 | no window from `i` reaches `min_token_len` iff the first token alone does not and no window from `i + 1`, starting from it, does |
| TokenStream.ScanEmitsIff | livekit-agents/livekit/agents/tokenize/token_stream.py:43-54 | nothing is emitted iff no accumulation of a run of the tokens before the last reaches `min_token_len` |
| TokenStream.PushOnlyCutsPrefix | livekit-agents/livekit/agents/tokenize/token_stream.py:34-64 | after a push, the buffer is a suffix of the old buffer plus the text. Below `min_ctx_len`, or with at most one token, it is exactly the old buffer plus the text and nothing is emitted |
| TokenStream.PushEmits | livekit-agents/livekit/agents/tokenize/token_stream.py:36-57 | a push at or above `min_ctx_len` emits nothing iff no prefix of the tokens before the last joins to `min_token_len` characters. Every emitted group is long enough, and together the groups are a prefix of the tokens before the last, in order |
| TokenStream.PushEmitsEarliest | livekit-agents/livekit/agents/tokenize/token_stream.py:43-57 | at push level, every emitted group ends at the first token at which its accumulation reaches `min_token_len`. After the last group, no run of tokens before the last token reaches it |
| TokenStream.PushedEventsLong | livekit-agents/livekit/agents/tokenize/token_stream.py:54-57 | every event a push appends has a token at least `min_token_len` long and the current segment id |
| TokenStream.FlushTextSplits | livekit-agents/livekit/agents/tokenize/token_stream.py:72-80 | the flushed text of a non-empty token list splits back into the token texts when none contains a space |
| TokenStream.ExampleBareScan | livekit-agents/livekit/agents/tokenize/token_stream.py:43-57 | bare tokens "ab", "cd", "ef" with `min_token_len` 4 emit exactly the group "ab", "cd" and withhold "ef" |
| TokenStream.CutAtFront | livekit-agents/livekit/agents/tokenize/token_stream.py:63-64 | when the buffer is the text, one space and a rest that does not start with whitespace, one relocation step leaves exactly that rest |
| TokenStream.CutAllFront | livekit-agents/livekit/agents/tokenize/token_stream.py:62-64 | the bare path consumes exactly what it emitted. When the buffer starts with the group's texts joined by single spaces and one more space, relocation leaves exactly the rest, provided no text and not the rest starts with whitespace |
| TokenStream.ExampleBareConsume | livekit-agents/livekit/agents/tokenize/token_stream.py:62-64 | emitting "ab cd" from "ab cd ef" leaves "ef" in the buffer |
| TokenStream.ExampleOffsetsScan | livekit-agents/livekit/agents/tokenize/token_stream.py:43-57 | offset tokens "ab", "cd", "ef" with `min_token_len` 1 emit "ab" and "cd" as two groups |
| TokenStream.ExampleOffsetsConsume | livekit-agents/livekit/agents/tokenize/token_stream.py:59-60 | as written, the second end offset is applied to the already-cut buffer, so "ab cd ef" ends as "f" |
| TokenStream.BufferedTokenStream.ClosedMessage | livekit-agents/livekit/agents/tokenize/token_stream.py:96-99 | definition: the use-after-close message, `"<module>.<class> is closed"` for the stream's class; used in the contracts of PushText, Flush and EndInput |
| TokenStream.BufferedTokenStream.constructor | livekit-agents/livekit/agents/tokenize/token_stream.py:15-29 | a new stream keeps the tokenizer and both thresholds, is open, has an empty buffer and no events, and reports the base class name |
| TokenStream.BufferedTokenStream.Sentence | livekit-agents/livekit/agents/tokenize/token_stream.py:108-120 | the sentence preset is the same engine under the sentence stream's class name |
| TokenStream.BufferedTokenStream.Word | livekit-agents/livekit/agents/tokenize/token_stream.py:123-135 | the word preset is the same engine under the word stream's class name |
| TokenStream.BufferedTokenStream.PushText | livekit-agents/livekit/agents/tokenize/token_stream.py:32-67 | on a closed stream it fails with the closed message and changes nothing. Otherwise the buffer and log become what `Push` specifies, under the unchanged segment id. Below `min_ctx_len`, the text is appended and nothing is emitted |
| TokenStream.BufferedTokenStream.EmitReady | livekit-agents/livekit/agents/tokenize/token_stream.py:39-67 | on an open stream, the loop moves the buffer past exactly the groups `Scan` emits and appends exactly their events, in order, keeping the stream invariant |
| TokenStream.BufferedTokenStream.Round | livekit-agents/livekit/agents/tokenize/token_stream.py:44-67 | on an open stream, one popped token keeps the accumulation equal to the accumulated text of the popped tokens and keeps the stream invariant. What this round emits, plus what remains to be emitted afterwards, is what remained before it |
| TokenStream.BufferedTokenStream.AdvancePast | livekit-agents/livekit/agents/tokenize/token_stream.py:59-64 | on an open stream, the buffer moves past the emitted group, either by the last end offset or by relocation |
| TokenStream.BufferedTokenStream.Relocate | livekit-agents/livekit/agents/tokenize/token_stream.py:62-64 | on an open stream, relocating each accumulated text in order gives the specified cut of the buffer |
| TokenStream.BufferedTokenStream.CutPast | livekit-agents/livekit/agents/tokenize/token_stream.py:63-64 | on an open stream, one relocation step cuts after the first occurrence (or after position 0 plus the length) and strips leading whitespace |
| TokenStream.BufferedTokenStream.Flush | livekit-agents/livekit/agents/tokenize/token_stream.py:70-87 | on a closed stream it fails and changes nothing. It always empties the buffer, and on an empty buffer it changes nothing else. On a non-empty buffer it emits one event, the join or the raw buffer, under the old segment id, then moves to a newer id than any logged one |
| TokenStream.BufferedTokenStream.EndInput | livekit-agents/livekit/agents/tokenize/token_stream.py:89-91 | flushes as above, then the stream is closed. On an already closed stream it fails with the closed message |
| TokenStream.BufferedTokenStream.Aclose | livekit-agents/livekit/agents/tokenize/token_stream.py:93-94 | closes the stream without emitting anything or touching the buffer or the segment id |

## Left out

- `__aiter__` / `__anext__` (lines 101-105) are left out. They are the consumer side of the event channel; the model exposes the channel as the append-only log `events` plus the `closed` flag.
- `aclose` is asynchronous in the source; it is modelled as a plain method because it awaits nothing.
- `shortuuid()` (lines 26 and 85) is modelled as a natural-number counter that a flush with output increments. The model captures that each new id differs from every id already logged, not its textual form.
- The concrete tokenizers (sentence and word splitters) are not part of this model. The tokenizer is an arbitrary function passed to the constructor.
- Mixed token lists (some bare strings, some triples) are outside the tokenizer's declared type. Python would raise `TypeError` or join only first characters on them. The constructors require a tokenizer that keeps to its type (`UniformTokenizer`), and the stream invariant `Valid` keeps that fact.
- Token offsets are natural numbers. A tokenizer returning a negative end offset, which Python's slicing would count from the end, is not modelled.
- `_buf_tokens` (line 28) is never read or written after initialisation, so it is not modelled.
- The reassembly property (the emitted tokens concatenated give back the pushed text up to whitespace) is not stated. It depends on how the injected tokenizer behaves on prefixes of the text, which the model leaves unconstrained.
- The `RuntimeError` raised on use after close is modelled as the `Closed(message)` status rather than an exception.
