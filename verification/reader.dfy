/** A reader for the formatter's display string: it recognises the two
    messages, and otherwise splits the text into lines and reads them back in
    groups of four (title, body, link, rule). It is the formatter's partner:
    when the shown values hold no newline, reading the output gives back
    exactly which message was produced, or exactly the shown values of the
    first six records in provider order. */
module Reader {
  import opened Strings
  import opened Provider
  import opened Formatter

  datatype Reading = Unreachable | NoResults | Items(items: seq<Shown>) | Unrecognized

  function ParseTitleLine(line: string): Option<string> {
    if |line| >= 4 && line[..2] == "**" && line[|line| - 2..] == "**" then Some(line[2..|line| - 2])
    else None
  }

  function ParseBodyLine(line: string): Option<string> {
    if |line| >= |Ellipsis| && line[|line| - |Ellipsis|..] == Ellipsis then Some(line[..|line| - |Ellipsis|])
    else None
  }

  function ParseLinkLine(line: string): Option<string> {
    if |line| >= |LinkMarker| && line[..|LinkMarker|] == LinkMarker then Some(line[|LinkMarker|..])
    else None
  }

  /** Reads one group of four lines back into the values it shows. */
  function ParseBlock(lines: seq<string>): Option<Shown>
    requires |lines| == 4
  {
    match (ParseTitleLine(lines[0]), ParseBodyLine(lines[1]), ParseLinkLine(lines[2]))
    case (Some(t), Some(b), Some(l)) => if lines[3] == Rule then Some(Shown(t, b, l)) else None
    case _ => None
  }

  /** Reads consecutive groups of four lines; any incomplete or unreadable
      group makes the whole reading fail. */
  function ParseLines(lines: seq<string>): (r: Option<seq<Shown>>)
    ensures r.Some? ==> |lines| == 4 * |r.value|
    decreases |lines|
  {
    if |lines| == 0 then Some([])
    else if |lines| < 4 then None
    else
      match (ParseBlock(lines[..4]), ParseLines(lines[4..]))
      case (Some(s), Some(rest)) => Some([s] + rest)
      case _ => None
  }

  function Read(text: string): Reading {
    if text == UnreachableMessage then Unreachable
    else if text == NoResultsMessage then NoResults
    else
      match ParseLines(Split(text, '\n'))
      case Some(items) => Items(items)
      case None => Unrecognized
  }

  /** The values each record shows, in order. */
  function ShowAll(records: seq<Record>): (shown: seq<Shown>)
    ensures |shown| == |records|
  {
    seq(|records|, i requires 0 <= i < |records| => ShowRecord(records[i]))
  }

  /** The display lines of a list of blocks, block after block. */
  function Lines(items: seq<Shown>): (lines: seq<string>)
    ensures |lines| == 4 * |items|
  {
    if |items| == 0 then [] else BlockLines(items[0]) + Lines(items[1..])
  }

  predicate LineFree(s: Shown) {
    '\n' !in s.title && '\n' !in s.body && '\n' !in s.link
  }

  /** Every record that gets rendered shows values without a newline. */
  predicate DisplayLineFree(outcome: Outcome) {
    outcome.Returned? ==>
      forall i :: 0 <= i < |outcome.records| && i < MaxShown ==> LineFree(ShowRecord(outcome.records[i]))
  }

  /** Block k occupies lines 4k to 4k+3, and the last of them is the rule. */
  lemma {:induction false} LinesAt(items: seq<Shown>, k: nat)
    requires k < |items|
    ensures Lines(items)[4 * k..4 * k + 4] == BlockLines(items[k])
    ensures Lines(items)[4 * k + 3] == Rule
    decreases k
  {
    if k > 0 {
      LinesAt(items[1..], k - 1);
      assert Lines(items)[4..] == Lines(items[1..]);
      assert Lines(items)[4 * k..4 * k + 4] == Lines(items)[4..][4 * (k - 1)..4 * (k - 1) + 4];
    }
  }

  /** One block reads back into the values it shows, whatever they are. */
  lemma ParseBlockLines(s: Shown)
    ensures ParseBlock(BlockLines(s)) == Some(s)
  {}

  lemma {:induction false} ParseAllLines(items: seq<Shown>)
    ensures ParseLines(Lines(items)) == Some(items)
    decreases |items|
  {
    if |items| > 0 {
      var lines := Lines(items);
      assert lines[..4] == BlockLines(items[0]);
      assert lines[4..] == Lines(items[1..]);
      ParseBlockLines(items[0]);
      ParseAllLines(items[1..]);
      assert [items[0]] + items[1..] == items;
    }
  }

  lemma {:induction false} LinesHaveNoNewline(items: seq<Shown>)
    requires forall i :: 0 <= i < |items| ==> LineFree(items[i])
    ensures forall j :: 0 <= j < |Lines(items)| ==> '\n' !in Lines(items)[j]
    decreases |items|
  {
    if |items| > 0 {
      LinesHaveNoNewline(items[1..]);
      assert '\n' !in Rule;
      var s := items[0];
      assert LineFree(s);
      assert '\n' !in TitleLine(s.title) && '\n' !in BodyLine(s.body) && '\n' !in LinkLine(s.link);
    }
  }

  /** Joining the rendered blocks is joining all their display lines. */
  lemma {:induction false} JoinRendered(records: seq<Record>)
    requires |records| >= 1
    ensures Join(RenderAll(records), '\n') == Join(Lines(ShowAll(records)), '\n')
    decreases |records|
  {
    var s0 := ShowRecord(records[0]);
    var shown := ShowAll(records);
    assert shown == [s0] + ShowAll(records[1..]);
    assert Lines(shown) == BlockLines(s0) + Lines(ShowAll(records[1..]));
    if |records| == 1 {
      assert Lines(ShowAll(records[1..])) == [];
      assert Lines(shown) == BlockLines(s0);
    } else {
      var blocks := RenderAll(records);
      assert blocks[1..] == RenderAll(records[1..]);
      assert Join(blocks, '\n') == RenderBlock(s0) + "\n" + Join(RenderAll(records[1..]), '\n');
      JoinRendered(records[1..]);
      JoinAppend(BlockLines(s0), Lines(ShowAll(records[1..])), '\n');
    }
  }

  /** Round trip: the reader recovers exactly the shown title, body and link
      of the first six records, in provider order, provided none of them
      contains a newline. A failed call reads as the failure message and an
      empty list as the no-results message. */
  lemma ReadSearchText(outcome: Outcome)
    requires DisplayLineFree(outcome)
    ensures outcome.Failed? ==> Read(SearchText(outcome)) == Unreachable
    ensures outcome == Returned([]) ==> Read(SearchText(outcome)) == NoResults
    ensures outcome.Returned? && |outcome.records| > 0 ==>
      Read(SearchText(outcome)) == Items(ShowAll(Take(outcome.records, MaxShown)))
  {
    SentinelsExclusive(outcome);
    if outcome.Returned? && |outcome.records| > 0 {
      SplitRendered(outcome.records);
      ParseAllLines(ShowAll(Take(outcome.records, MaxShown)));
    }
  }

  /** Without newlines in the shown values, the output splits into exactly
      the display lines of the first six records. */
  lemma SplitRendered(records: seq<Record>)
    requires |records| >= 1
    requires DisplayLineFree(Returned(records))
    ensures Split(SearchText(Returned(records)), '\n') == Lines(ShowAll(Take(records, MaxShown)))
  {
    var first := Take(records, MaxShown);
    var items := ShowAll(first);
    forall i | 0 <= i < |items|
      ensures LineFree(items[i])
    {
      assert items[i] == ShowRecord(records[i]);
    }
    LinesHaveNoNewline(items);
    JoinRendered(first);
    SplitJoin(Lines(items), '\n');
  }

  /** The output holds exactly min(n, 6) blocks of four lines each, and each
      block ends with the 90-character rule. */
  lemma BlockCount(records: seq<Record>)
    requires |records| >= 1
    requires DisplayLineFree(Returned(records))
    ensures |Split(SearchText(Returned(records)), '\n')| == 4 * Min(|records|, MaxShown)
    ensures forall k :: 0 <= k < Min(|records|, MaxShown) ==>
      Split(SearchText(Returned(records)), '\n')[4 * k + 3] == Rule
  {
    SplitRendered(records);
    var items := ShowAll(Take(records, MaxShown));
    forall k | 0 <= k < Min(|records|, MaxShown)
      ensures Lines(items)[4 * k + 3] == Rule
    {
      LinesAt(items, k);
    }
  }

  /** Lines 4k to 4k+3 of the output are the k-th record's bold title, its
      body cut to 300 characters and always followed by "...", its link after
      the link marker, and the rule; a missing field shows its default. */
  lemma ItemLines(records: seq<Record>, k: nat)
    requires |records| >= 1
    requires DisplayLineFree(Returned(records))
    requires k < Min(|records|, MaxShown)
    ensures var lines := Split(SearchText(Returned(records)), '\n');
      var r := records[k];
      && |lines| == 4 * Min(|records|, MaxShown)
      && lines[4 * k] == "**" + r.title.GetOr(DefaultTitle) + "**"
      && lines[4 * k + 1] == Take(r.body.GetOr(DefaultBody), BodyLimit) + "..."
      && lines[4 * k + 2] == "🔗 " + r.href.GetOr(DefaultLink)
      && lines[4 * k + 3] == Rule
  {
    SplitRendered(records);
    var items := ShowAll(Take(records, MaxShown));
    LinesAt(items, k);
    var lines := Lines(items);
    assert lines[4 * k] == lines[4 * k..4 * k + 4][0];
    assert lines[4 * k + 1] == lines[4 * k..4 * k + 4][1];
    assert lines[4 * k + 2] == lines[4 * k..4 * k + 4][2];
    assert items[k] == ShowRecord(records[k]);
  }
}
