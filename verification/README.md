# Search-result formatter of a real-time web searcher

The application takes a free-text query and sends it to a web search provider. It turns the provider's answer into one display string and then asks a language model to summarise that string. This project models the display-string step, `realtime_search` in `main.py`, and proves properties of it.

There are three kinds of answer:

- If the provider call fails in any way, the result is exactly the "search engine unreachable" message, `❌ Arama motoruna şu an ulaşılamıyor. …`.
- If the provider returns an empty list, the result is exactly the "no results" message, `❌ Sonuç bulunamadı. …`.
- Otherwise, the first six records are each rendered as a block of four lines: the title in bold, the body cut to 300 characters followed by `...`, the link after `🔗 `, and a rule of 90 `─` characters. A missing title, body or link shows `Başlıksız`, `İçerik yok` or `#` instead. The blocks are joined with single newlines.

The body is always followed by `...`, even when it is shorter than 300 characters. Failure and no results come back as plain strings, not error values.

The provider call is not modelled. Its outcome is an input: `Provider.Outcome` is either `Failed` or `Returned(records)`, and each `Record` field is either a string or absent. Strings are sequences of Unicode scalar values. For every Python string without a lone surrogate code point, `body[:300]` and the lengths in the contracts count the same characters as the source does.

Modules:

- `Strings` (strings.dfy): slicing, repetition, `join` and `split` on one-character separators, with lemmas relating them.
- `Provider` (provider.dfy): records, the call outcome, and the request constants (8 results, time limit `d`, region `wt-wt`).
- `Formatter` (formatter.dfy):
  - the messages, defaults and constants;
  - the item block;
  - `SearchText`, the display string as a function;
  - `RealtimeSearch`, the source's loop-and-join procedure, proved equal to `SearchText`;
  - lemmas about which messages can occur, ordering, and records beyond the sixth.
- `Reader` (reader.dfy): the formatter's partner. It reads a display string back into the message it is, or into the shown title, body and link of each block. The round-trip lemma shows that the reader recovers exactly the shown title, body and link of the first six records, provided none of them contains a newline.

## Model

| member | source | states |
|---|---|---|
| Strings.Take | main.py:31 | Python slicing `s[:n]`: the result has min(\|s\|, n) elements, is a prefix of `s`, and is `s` itself when `s` is no longer than `n` |
| Strings.Repeat | main.py:36 | `'─'*90`: a string of exactly `n` characters, every one of them `c` |
| Strings.Join | main.py:38 | Python's `"\n".join`: a non-empty join begins with its first part. Its meaning is pinned down by `SplitJoin` (splitting undoes it when no part holds the separator), `JoinSnoc`, `JoinAppend` and `JoinEndsWithLast` |
| Strings.JoinEndsWithLast | main.py:38 | a non-empty join ends with its last part, so no separator trails it |
| Strings.JoinSnoc | main.py:38 | adding one part to a non-empty `join` adds exactly one separator and that part at the end |
| Strings.JoinPrefix | main.py:38 | the `join` of a non-empty leading slice of the parts is a prefix of the `join` of all of them |
| Formatter.ShowRecord | main.py:33-36 | a present title or link is shown unchanged and a missing one shows `Başlıksız` or `#`; a present body is shown as its first min(\|body\|, 300) characters and a missing one as `İçerik yok` |
| Formatter.RenderBlock | main.py:36 | an item block is the four display lines (bold title, body plus `...`, `🔗 ` plus link, 90-character rule) joined by newlines; its length is the three shown values' lengths plus 102; it starts with `**` and ends with the rule |
| Formatter.RenderItem | main.py:33-36 | one loop step: the block opens with `**`, the record's title or `Başlıksız`, `**` and a newline; it is at most 102 characters longer than the shown title, 300 body characters and the shown link together |
| Formatter.RenderAll | main.py:30-37 | one block per record, in record order, block i rendering record i |
| Formatter.CollectBlocks | main.py:30-37 | the loop that appends one block per record produces exactly the blocks of the records, in order |
| Formatter.JoinLines | main.py:38 | the `"\n".join` loop produces the newline `join` of the parts |
| Formatter.RealtimeSearch | main.py:16-42 | the procedure as written: failure message, no-results message, or the six-record loop followed by a join. It returns the same string as `SearchText` for every outcome |
| Formatter.SearchText | main.py:27-42 | the returned string. For a non-empty list it starts with `**` and ends with the 90-character rule of the last block, so it never ends with a newline and never starts like either message. Which message appears when is pinned down by `SentinelsExclusive`, and the blocks by the `Reader.ReadSearchText` round trip |
| Formatter.SentinelsExclusive | main.py:27-42 | the two messages differ; the output is the failure message if and only if the call failed, and the no-results message if and only if the list was empty. So a failure never yields partial formatted output |
| Formatter.LaterRecordsIgnored | main.py:31 | two lists with the same first six records give the same output, so changing records at index 6 or beyond changes nothing |
| Formatter.AppendBeyondSixIgnored | main.py:31 | appending any records to a list of six or more leaves the output unchanged |
| Formatter.AppendWithinSix | main.py:31-38 | for a list of 1 to 5 records, one more record appends exactly a newline and that record's block: provider order is kept, with no re-ranking |
| Formatter.LeadingRecordsPrefix | main.py:31-38 | the output for any non-empty leading part of the list is a prefix of the output for the whole list |
| Reader.ReadSearchText | main.py:27-38 | round trip: reading the output gives back the failure message for a failed call and the no-results message for an empty list; for any other list it gives the shown title, truncated body and link of the first min(n, 6) records, in provider order |
| Reader.SplitRendered | main.py:36-38 | splitting the output on newlines gives exactly the display lines of the first six records, block after block |
| Reader.BlockCount | main.py:31-38 | the output has exactly 4·min(n, 6) lines, and line 4k+3 is the 90-character rule for every rendered block k |
| Reader.ItemLines | main.py:33-36 | lines 4k to 4k+3 are `**title**`, the first 300 body characters plus `...` (even for a shorter body), `🔗 ` plus the link, and the rule. A missing field shows its default |

## Left out

- The provider call itself (main.py:18-25). It is a network client in a library that is not part of this model. Its outcome is an input, and any exception inside the guarded block is the `Failed` outcome. The request parameters are recorded as constants in `Provider` only.
- The five-minute cache decorator (main.py:15). Its behaviour belongs to the UI framework, which is not part of this model. As written, it would also cache the two messages for five minutes.
- `agent_analysis` (main.py:44-67). Its prompt depends on the wall clock, and its result is whatever the language-model service returns.
- Credential and environment handling (main.py:9-13, 77-80), and all of the UI and its re-run control flow (main.py:69-122).
- The logging of exception details to the terminal (main.py:41). It has no effect on the returned string.
- Record fields that are present but not strings (for example `None`). In Python, slicing such a body raises an exception, which lands in the failure branch. Here a field is either a string or absent.
- The empty query. `realtime_search` itself has no special case for an empty query, and its only caller skips the call when the query is empty (main.py:91). The model works on the provider's outcome, so the query does not appear in it.
- Field values that contain a lone surrogate code point. A Python `str` can hold one, but a Dafny `char` is a Unicode scalar value and cannot, so such titles, bodies and links are outside the model.
- Reader.ReadSearchText: the round trip is proved only when no shown title, body or link contains a newline. With newlines inside a field, the lines of the output no longer identify the blocks.
- Reader.SplitRendered: proved under the same no-newline condition, for the same reason.
- Reader.BlockCount: proved under the same no-newline condition, for the same reason.
- Reader.ItemLines: proved under the same no-newline condition, for the same reason.
