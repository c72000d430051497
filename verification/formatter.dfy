/** The result formatter of `realtime_search` (main.py:16-42): a provider
    outcome becomes one display string, either a fixed message for failure or
    for an empty result list, or up to six rendered item blocks joined by
    newlines. */
module Formatter {
  import opened Strings
  import opened Provider

  /** Both messages are a cross mark, a reason and a piece of advice. */
  const Mark: string := "❌ "
  const NoResultsMessage: string := Mark + "Sonuç bulunamadı." + " Lütfen farklı anahtar kelimeler deneyin."
  const UnreachableMessage: string := Mark + "Arama motoruna şu an ulaşılamıyor." + " Lütfen bir dakika sonra tekrar deneyin."

  const DefaultTitle: string := "Başlıksız"
  const DefaultBody: string := "İçerik yok"
  const DefaultLink: string := "#"

  /** At most this many records are rendered. */
  const MaxShown: nat := 6
  /** At most this many characters of a body are shown. */
  const BodyLimit: nat := 300

  const Ellipsis: string := "..."
  const LinkMarker: string := "🔗 "
  const RuleChar: char := '─'
  const RuleWidth: nat := 90
  const Rule: string := Repeat(RuleChar, RuleWidth)

  /** The three values a record contributes to its block. */
  datatype Shown = Shown(title: string, body: string, link: string)

  /** Field lookup with defaults, and the body cut to its first 300 characters. */
  function ShowRecord(r: Record): (s: Shown)
    ensures r.title.Some? ==> s.title == r.title.value
    ensures r.title.None? ==> s.title == DefaultTitle
    ensures r.href.Some? ==> s.link == r.href.value
    ensures r.href.None? ==> s.link == DefaultLink
    ensures r.body.Some? ==> s.body <= r.body.value && |s.body| == Min(|r.body.value|, BodyLimit)
    ensures r.body.None? ==> s.body == DefaultBody
  {
    Shown(r.title.GetOr(DefaultTitle), Take(r.body.GetOr(DefaultBody), BodyLimit), r.href.GetOr(DefaultLink))
  }

  function TitleLine(title: string): string {
    "**" + title + "**"
  }

  function BodyLine(body: string): string {
    body + Ellipsis
  }

  function LinkLine(link: string): string {
    LinkMarker + link
  }

  /** The four display lines of one block, top to bottom. */
  function BlockLines(s: Shown): seq<string> {
    [TitleLine(s.title), BodyLine(s.body), LinkLine(s.link), Rule]
  }

  /** The item f-string: bold title, body and ellipsis, link, rule. It is the
      four display lines joined by newlines, and its length is the length of
      its three shown values plus 102 fixed characters. */
  function RenderBlock(s: Shown): (block: string)
    ensures block == Join(BlockLines(s), '\n')
    ensures |block| == |s.title| + |s.body| + |s.link| + 102
    ensures block[..2] == "**" && block[|block| - RuleWidth..] == Rule
  {
    var block := "**" + s.title + "**\n" + s.body + "...\n🔗 " + s.link + "\n" + Rule;
    var lines := BlockLines(s);
    assert lines[1..][1..] == [LinkLine(s.link), Rule];
    assert Join(lines[1..][1..], '\n') == LinkLine(s.link) + "\n" + Rule;
    assert Join(lines[1..], '\n') == BodyLine(s.body) + "\n" + LinkLine(s.link) + "\n" + Rule;
    block
  }

  /** The block of one record: it opens with the bold title line, the record's
      title or its default, and it is at most 102 characters longer than the
      shown title, 300 body characters and the shown link together. */
  function RenderItem(r: Record): (block: string)
    ensures var title := r.title.GetOr(DefaultTitle);
      |block| >= |title| + 5 && block[..|title| + 5] == "**" + title + "**\n"
    ensures |block| <= |r.title.GetOr(DefaultTitle)| + BodyLimit + |r.href.GetOr(DefaultLink)| + 102
  {
    RenderBlock(ShowRecord(r))
  }

  /** One block per record, in the records' order. */
  function RenderAll(records: seq<Record>): (blocks: seq<string>)
    ensures |blocks| == |records|
    ensures forall i :: 0 <= i < |records| ==> blocks[i] == RenderItem(records[i])
  {
    if |records| == 0 then [] else [RenderItem(records[0])] + RenderAll(records[1..])
  }

  /** The display string `realtime_search` returns for a provider outcome.
      Formatted results start with the bold marker of the first title and end
      with the rule of the last block, never with a newline. */
  function SearchText(outcome: Outcome): (text: string)
    ensures outcome.Returned? && |outcome.records| >= 1 ==>
      && |text| >= RuleWidth
      && text[..2] == "**"
      && text[|text| - RuleWidth..] == Rule
  {
    match outcome
    case Failed => UnreachableMessage
    case Returned(records) =>
      if |records| == 0 then NoResultsMessage
      else
        var blocks := RenderAll(Take(records, MaxShown));
        JoinEndsWithLast(blocks, '\n');
        Join(blocks, '\n')
  }

  /** The source's own procedure: a failed call gives the failure message,
      an empty list the no-results message, and otherwise the blocks of the
      first six records, collected one loop step per record, are joined with
      newlines. */
  method RealtimeSearch(outcome: Outcome) returns (text: string)
    ensures text == SearchText(outcome)
  {
    if outcome.Failed? {
      return UnreachableMessage;
    }
    var results := outcome.records;
    if |results| == 0 {
      return NoResultsMessage;
    }
    var formatted := CollectBlocks(Take(results, MaxShown));
    text := JoinLines(formatted);
  }

  /** The loop that appends one block per record to a list. */
  method CollectBlocks(records: seq<Record>) returns (formatted: seq<string>)
    ensures formatted == RenderAll(records)
  {
    formatted := [];
    var i := 0;
    while i < |records|
      invariant 0 <= i <= |records|
      invariant formatted == RenderAll(records[..i])
    {
      assert records[..i + 1] == records[..i] + [records[i]];
      RenderAllSnoc(records[..i], records[i]);
      formatted := formatted + [RenderItem(records[i])];
      i := i + 1;
    }
    assert records[..i] == records;
  }

  /** Python's `"\n".join(parts)`, one part at a time. */
  method JoinLines(parts: seq<string>) returns (text: string)
    ensures text == Join(parts, '\n')
  {
    if |parts| == 0 {
      return "";
    }
    text := parts[0];
    var j := 1;
    while j < |parts|
      invariant 1 <= j <= |parts|
      invariant text == Join(parts[..j], '\n')
    {
      assert parts[..j + 1] == parts[..j] + [parts[j]];
      JoinSnoc(parts[..j], parts[j], '\n');
      text := text + "\n" + parts[j];
      j := j + 1;
    }
    assert parts[..j] == parts;
  }

  /** Rendering one more record appends exactly its block. */
  lemma RenderAllSnoc(records: seq<Record>, r: Record)
    ensures RenderAll(records + [r]) == RenderAll(records) + [RenderItem(r)]
  {}

  /** The two messages and the rendered output are pairwise distinct: the
      failure message comes from a failed call and from nothing else, the
      no-results message from an empty list and from nothing else. */
  lemma SentinelsExclusive(outcome: Outcome)
    ensures UnreachableMessage != NoResultsMessage
    ensures SearchText(outcome) == UnreachableMessage <==> outcome.Failed?
    ensures SearchText(outcome) == NoResultsMessage <==> outcome == Returned([])
  {}

  /** Records after the sixth never influence the output. */
  lemma LaterRecordsIgnored(records: seq<Record>, others: seq<Record>)
    requires Take(records, MaxShown) == Take(others, MaxShown)
    ensures SearchText(Returned(records)) == SearchText(Returned(others))
  {}

  /** Appending records to a list that already has six changes nothing. */
  lemma AppendBeyondSixIgnored(records: seq<Record>, more: seq<Record>)
    requires |records| >= MaxShown
    ensures SearchText(Returned(records + more)) == SearchText(Returned(records))
  {
    assert (records + more)[..MaxShown] == records[..MaxShown];
    LaterRecordsIgnored(records + more, records);
  }

  /** Below six records, one more record appends a newline and its block:
      records are rendered in provider order, with nothing reordered. */
  lemma AppendWithinSix(records: seq<Record>, r: Record)
    requires 1 <= |records| < MaxShown
    ensures SearchText(Returned(records + [r])) == SearchText(Returned(records)) + "\n" + RenderItem(r)
  {
    RenderAllSnoc(records, r);
    JoinSnoc(RenderAll(records), RenderItem(r), '\n');
  }

  /** The output for any non-empty leading part of the provider's list is a
      prefix of the output for the whole list. */
  lemma LeadingRecordsPrefix(records: seq<Record>, k: nat)
    requires 1 <= k <= |records|
    ensures SearchText(Returned(records[..k])) <= SearchText(Returned(records))
  {
    var all := RenderAll(Take(records, MaxShown));
    var m := Min(k, MaxShown);
    var part := RenderAll(Take(records[..k], MaxShown));
    assert Take(records[..k], MaxShown) == Take(records, MaxShown)[..m];
    assert part == all[..m];
    JoinPrefix(all, m, '\n');
  }
}
