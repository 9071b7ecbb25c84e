/** How the "Chat with Prescription Data" page of `main` (app.py) decides which
    prescription text the chat sees: the selector's options, the mapping from
    the selected label back to data, the "All Prescriptions" text, and the
    precedence between stored records and the current extraction. */
module Selector {
  import opened Wrappers
  import opened Strings

  /** A stored prescription as the fetch returns it: its text and the string
      form of its upload date (opaque here). */
  datatype Record = Record(text: string, dateLabel: string)

  /** The store as the page sees it: no collection (connection failed), or the
      records the fetch returned, newest first. A failing fetch returns no
      records, so it is `Reachable([])`. */
  datatype StoreView = Unreachable | Reachable(records: seq<Record>)

  const CurrentLabel := "Current Extracted Prescription"
  const AllLabel := "All Prescriptions"

  /** The selector label of the record at 0-based position `i`. */
  function RecordLabel(i: nat, dateLabel: string): (r: string)
    ensures |r| > 16 + |dateLabel|
    ensures r[..13] == "Prescription " && r[13..|r| - |dateLabel|] == NatToString(i + 1) + " - "
    ensures r[|r| - |dateLabel|..] == dateLabel
  {
    "Prescription " + NatToString(i + 1) + " - " + dateLabel
  }

  /** The block that stands for record `i` (0-based) in "All Prescriptions". */
  function Entry(i: nat, text: string): (r: string)
    ensures |r| > 15 + |text|
    ensures r[..13] == "Prescription " && r[13..|r| - |text|] == NatToString(i + 1) + ":\n"
    ensures r[|r| - |text|..] == text
  {
    "Prescription " + NatToString(i + 1) + ":\n" + text
  }

  function RecordLabels(records: seq<Record>): (labels: seq<string>)
    ensures |labels| == |records|
    ensures forall i :: 0 <= i < |records| ==> labels[i] == RecordLabel(i, records[i].dateLabel)
  {
    seq(|records|, i requires 0 <= i < |records| => RecordLabel(i, records[i].dateLabel))
  }

  function Entries(records: seq<Record>): (entries: seq<string>)
    ensures |entries| == |records|
    ensures forall i :: 0 <= i < |records| ==> entries[i] == Entry(i, records[i].text)
  {
    seq(|records|, i requires 0 <= i < |records| => Entry(i, records[i].text))
  }

  /** How many options precede the first record's label. */
  function FirstRecordOption(hasCurrent: bool): nat
  {
    if hasCurrent then 2 else 1
  }

  /** The selector's options, in order: the current extraction (only when
      there is one), all prescriptions, then one label per record in fetched
      order. */
  function Options(records: seq<Record>, hasCurrent: bool): (opts: seq<string>)
    ensures |opts| == |records| + FirstRecordOption(hasCurrent)
    ensures hasCurrent ==> opts[0] == CurrentLabel
    ensures opts[FirstRecordOption(hasCurrent) - 1] == AllLabel
    ensures forall i :: 0 <= i < |records| ==>
      opts[FirstRecordOption(hasCurrent) + i] == RecordLabel(i, records[i].dateLabel)
  {
    (if hasCurrent then [CurrentLabel] else []) + [AllLabel] + RecordLabels(records)
  }

  /** The comprehension and the two `insert(0, ...)` calls that build the
      options list. */
  method BuildOptions(records: seq<Record>, hasCurrent: bool) returns (options: seq<string>)
    ensures options == Options(records, hasCurrent)
  {
    options := [];
    var idx := 0;
    while idx < |records|
      invariant 0 <= idx <= |records|
      invariant options == RecordLabels(records[..idx])
    {
      options := options + [RecordLabel(idx, records[idx].dateLabel)];
      idx := idx + 1;
    }
    assert records[..idx] == records;
    options := [AllLabel] + options;
    if hasCurrent {
      options := [CurrentLabel] + options;
    }
  }

  /** The text "All Prescriptions" stands for: every record's block, in
      fetched order, separated by a blank line. */
  function AllPrescriptions(records: seq<Record>): (r: string)
    ensures records == [] ==> r == ""
    ensures records != [] ==>
      var first := Entry(0, records[0].text);
      |first| <= |r| && r[..|first|] == first
    ensures records != [] ==>
      var last := Entry(|records| - 1, records[|records| - 1].text);
      |last| <= |r| && r[|r| - |last|..] == last
  {
    var entries := Entries(records);
    if records == [] then Join(entries, "\n\n")
    else
      JoinEnds(entries, "\n\n");
      Join(entries, "\n\n")
  }

  /** Python's `records[idx]`, negative positions counting from the end;
      `None` is the `IndexError`. */
  function PyIndex(records: seq<Record>, idx: int): (r: Option<Record>)
    ensures r.Some? <==> -|records| <= idx < |records|
    ensures r.Some? ==> r.value == records[idx % |records|]
  {
    if 0 <= idx < |records| then Some(records[idx])
    else if -|records| <= idx < 0 then Some(records[|records| + idx])
    else None
  }

  /** Lines 284-292: the data for the selected label. The last branch parses
      the label as `int(label.split(" ")[1]) - 1` and indexes the records;
      `None` is an exception escaping from that parse or index. `current` is
      the session's current prescription. */
  function SelectData(selected: string, records: seq<Record>, current: string): (r: Option<string>)
    ensures r.Some? ==>
      r.value == current || r.value == AllPrescriptions(records) ||
      exists i :: 0 <= i < |records| && records[i].text == r.value
  {
    if selected == AllLabel then Some(AllPrescriptions(records))
    else if selected == CurrentLabel then Some(current)
    else
      var fields := Split(selected, ' ');
      if |fields| < 2 then None
      else
        match ParseInt(fields[1])
        case None => None
        case Some(n) =>
          match PyIndex(records, n - 1)
          case None => None
          case Some(r) => Some(r.text)
  }

  /** The second space-separated field of a record label is its ordinal,
      whatever the date label contains. */
  lemma LabelOrdinalField(i: nat, dateLabel: string)
    ensures |Split(RecordLabel(i, dateLabel), ' ')| >= 2
    ensures Split(RecordLabel(i, dateLabel), ' ')[1] == NatToString(i + 1)
  {
    var d := NatToString(i + 1);
    NatToStringHasNoSpace(i + 1);
    var rest := "- " + dateLabel;
    assert RecordLabel(i, dateLabel) == "Prescription" + [' '] + (d + [' '] + rest);
    SplitAfter("Prescription", ' ', d + [' '] + rest);
    SplitAfter(d, ' ', rest);
  }

  /** Label round trip: selecting the label of record `i` yields exactly that
      record's text. */
  lemma SelectRecordLabel(records: seq<Record>, current: string, i: nat)
    requires i < |records|
    ensures SelectData(RecordLabel(i, records[i].dateLabel), records, current) == Some(records[i].text)
  {
    var opt := RecordLabel(i, records[i].dateLabel);
    assert opt[0] == 'P';
    assert AllLabel[0] == 'A' && CurrentLabel[0] == 'C';
    LabelOrdinalField(i, records[i].dateLabel);
    ParseNatToString(i + 1);
  }

  /** The data selected by the option at position `choice`: never an
      exception, and exactly what that option stands for. */
  lemma SelectOption(records: seq<Record>, hasCurrent: bool, current: string, choice: nat)
    requires choice < |Options(records, hasCurrent)|
    ensures SelectData(Options(records, hasCurrent)[choice], records, current) ==
      if hasCurrent && choice == 0 then Some(current)
      else if choice == FirstRecordOption(hasCurrent) - 1 then Some(AllPrescriptions(records))
      else Some(records[choice - FirstRecordOption(hasCurrent)].text)
  {
    var first := FirstRecordOption(hasCurrent);
    if choice >= first {
      SelectRecordLabel(records, current, choice - first);
    } else if !(hasCurrent && choice == 0) {
      assert choice == first - 1;
    }
  }

  /** Record order is kept: the block of record `i` lies wholly before the
      block of every later record `j`, with the blank-line separator between. */
  lemma AllPrescriptionsInOrder(records: seq<Record>, i: nat, j: nat) returns (p: nat, q: nat)
    requires i < j < |records|
    ensures p + |Entry(i, records[i].text)| + 2 <= q
    ensures OccursAt(AllPrescriptions(records), p, Entry(i, records[i].text))
    ensures OccursAt(AllPrescriptions(records), p + |Entry(i, records[i].text)|, "\n\n")
    ensures OccursAt(AllPrescriptions(records), q, Entry(j, records[j].text))
  {
    var entries := Entries(records);
    var ei, ej := Entry(i, records[i].text), Entry(j, records[j].text);
    assert entries[i] == ei && entries[j] == ej;
    p, q := JoinInOrder(entries, "\n\n", i, j);
    assert AllPrescriptions(records) == Join(entries, "\n\n");
  }

  /** With two records, newest first, the text is the first one's heading and
      text, a blank line, then the second one's heading and text. */
  lemma AllPrescriptionsOfTwo(r1: Record, r2: Record)
    ensures AllPrescriptions([r1, r2]) ==
      "Prescription 1:\n" + r1.text + "\n\n" + "Prescription 2:\n" + r2.text
  {
    var entries := Entries([r1, r2]);
    var e1, e2 := Entry(0, r1.text), Entry(1, r2.text);
    assert entries == [e1, e2];
    assert e1 == "Prescription 1:\n" + r1.text by { assert NatToString(1) == "1"; }
    assert e2 == "Prescription 2:\n" + r2.text by { assert NatToString(2) == "2"; }
    assert entries[1..] == [e2];
    assert Join(entries, "\n\n") == e1 + "\n\n" + e2;
  }

  /** A block identifies its record: its position and its text. */
  lemma EntryInjective(i: nat, t1: string, j: nat, t2: string)
    requires Entry(i, t1) == Entry(j, t2)
    ensures i == j && t1 == t2
  {
    var a, b := NatToString(i + 1), NatToString(j + 1);
    var r1, r2 := ":\n" + t1, ":\n" + t2;
    EntryAfterWord(i, t1);
    EntryAfterWord(j, t2);
    DigitsThenRest(a, r1, b, r2);
    NatToStringInjective(i + 1, j + 1);
    assert t1 == r1[2..] && t2 == r2[2..];
  }

  /** After the word "Prescription " a block holds its number, then ":\n" and the text. */
  lemma EntryAfterWord(i: nat, text: string)
    ensures Entry(i, text)[13..] == NatToString(i + 1) + (":\n" + text)
  {
    var e := Entry(i, text);
    assert e == "Prescription " + (NatToString(i + 1) + (":\n" + text));
  }

  /** Whether the selector is shown: the collection exists and the fetch
      returned at least one record. */
  predicate HasRecords(store: StoreView)
  {
    store.Reachable? && store.records != []
  }

  /** The `current` argument `SelectData` is given: the session value when it
      is truthy (the only case in which its option is offered). */
  function CurrentText(current: Option<string>): string
  {
    if Truthy(current) then current.value else ""
  }

  /** Lines 261-306: the prescription data the chat panel gets, or `None` when
      the page returns early without a chat panel, which happens exactly when
      there are no records to select from and no current extraction; without
      records a current extraction is used directly. `choice` is the position
      of the option the selector returns; it is only read when the selector
      is shown. */
  function Resolve(store: StoreView, current: Option<string>, choice: nat): (r: Option<string>)
    requires HasRecords(store) ==> choice < |Options(store.records, Truthy(current))|
    ensures r.None? <==> !HasRecords(store) && !Truthy(current)
    ensures !HasRecords(store) && Truthy(current) ==> r == current
  {
    if HasRecords(store) then
      var selected := Options(store.records, Truthy(current))[choice];
      SelectOption(store.records, Truthy(current), CurrentText(current), choice);
      Some(SelectData(selected, store.records, CurrentText(current)).value)
    else if Truthy(current) then Some(current.value)
    else None
  }

  /** Stored records take precedence: with records, the data is what the
      chosen option stands for, and the current extraction is used only when
      its own option is chosen. */
  lemma ResolveUsesSelector(store: StoreView, current: Option<string>, choice: nat)
    requires HasRecords(store) && choice < |Options(store.records, Truthy(current))|
    ensures var first := FirstRecordOption(Truthy(current));
      Resolve(store, current, choice) ==
        if Truthy(current) && choice == 0 then current
        else if choice == first - 1 then Some(AllPrescriptions(store.records))
        else Some(store.records[choice - first].text)
  {
    SelectOption(store.records, Truthy(current), CurrentText(current), choice);
  }

  /** An empty current prescription counts as absent, with or without
      records. */
  lemma ResolveEmptyCurrentIsAbsent(store: StoreView, choice: nat)
    requires HasRecords(store) ==> choice < |Options(store.records, false)|
    ensures Resolve(store, Some(""), choice) == Resolve(store, None, choice)
  {
  }
}
