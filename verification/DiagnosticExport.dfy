/** The diagnostic export: the running size estimate by which it drops the oldest log entries. */
module DiagnosticExport {
  import opened Basics
  import opened JsonText
  import opened Numbers

  const MAX_BYTES: nat := 8388608
  const MAX_LOGS: nat := 500

  /** The exported value: what stands before the logs, the logs, and how many were dropped. */
  function Value(head: seq<Field>, logs: seq<Json>, dropped: nat): Json {
    Obj(head + [Field("\"logs\"", Arr(logs)), Field("\"truncatedLogCount\"", Leaf(Decimal(dropped)))])
  }

  /** The file that is written. */
  function FileText(head: seq<Field>, logs: seq<Json>, dropped: nat): string { Pretty(Value(head, logs, dropped), 0) + "\n" }

  /** One entry printed at the margin, and every line of it indented by four. */
  function EntrySize(entry: Json): nat { Size(Shifted(Pretty(entry, 0), 4)) }

  function EntrySizes(logs: seq<Json>): nat {
    if logs == [] then 0 else EntrySize(logs[0]) + EntrySizes(logs[1..])
  }

  predicate OneLineEntries(logs: seq<Json>) { forall i | 0 <= i < |logs| :: OneLineLeaves(logs[i]) }

  /** Entries sized on their own take what they take inside the list. */
  lemma {:induction false} EntrySizesAreItems(logs: seq<Json>)
    requires OneLineEntries(logs)
    ensures EntrySizes(logs) == ItemSizes(logs, 4)
  {
    hide Size, Pretty, ShiftedRest;
    if logs != [] {
      ShiftedPretty(logs[0], 0, 4);
      EntrySizesAreItems(logs[1..]);
    }
  }

  function Base(head: seq<Field>): nat { Size(Pretty(Value(head, [], 0), 0)) }

  lemma {:induction false} DecimalSize(n: nat)
    requires n < 1000
    ensures Ascii(Decimal(n)) && |Decimal(n)| == if n < 10 then 1 else if n < 100 then 2 else 3
  {
    if n >= 10 { DecimalSize(n / 10); }
  }

  /** The value's size, changed first in its logs and then in its count. */
  lemma ValueSize(head: seq<Field>, logs: seq<Json>, dropped: nat)
    requires dropped < 1000
    ensures Size(Pretty(Value(head, logs, dropped), 0)) + 3
            == Base(head) + Size(Pretty(Arr(logs), 2)) + |Decimal(dropped)|
  {
    hide Size, Pretty, Decimal;
    var none, some := Field("\"logs\"", Arr([])), Field("\"logs\"", Arr(logs));
    var zero, count := Field("\"truncatedLogCount\"", Leaf(Decimal(0))), Field("\"truncatedLogCount\"", Leaf(Decimal(dropped)));
    assert head + [none, zero] == head + ([none] + [zero]);
    assert head + [some, zero] == head + ([some] + [zero]);
    Neutral(head + [some]);
    assert head + [some, zero] == (head + [some]) + ([zero] + []);
    assert head + [some, count] == (head + [some]) + ([count] + []);
    FieldsChange(head, none, some, [zero], 2);
    FieldsChange(head + [some], zero, count, [], 2);
    ObjSize(head + [none, zero], 0);
    ObjSize(head + [some, count], 0);
    ArrSize([], 2);
    CountSize(0);
    CountSize(dropped);
  }

  lemma CountSize(n: nat)
    requires n < 1000
    ensures Size(Pretty(Leaf(Decimal(n)), 2)) == |Decimal(n)| && (n == 0 ==> |Decimal(n)| == 1)
  {
    DecimalSize(n);
    SizeAscii(Decimal(n));
  }

  /** The estimate for the entries that are left. */
  function Estimate(head: seq<Field>, logs: seq<Json>): nat { Base(head) + EntrySizes(logs) + 2 * |logs| + 16 }

  /** The estimate is never below the size of the file, and at most sixteen bytes above it. */
  lemma EstimateBounds(head: seq<Field>, logs: seq<Json>, dropped: nat)
    requires OneLineEntries(logs) && dropped < 1000
    ensures Size(FileText(head, logs, dropped)) <= Estimate(head, logs) <= Size(FileText(head, logs, dropped)) + 16
  {
    hide Size, Pretty, ItemSizes, Decimal, OneLineLeaves, Value, EntrySize;
    ValueSize(head, logs, dropped);
    EntrySizesAreItems(logs);
    ArrSize(logs, 2);
    DecimalSize(dropped);
    SizeAscii("\n");
    SizeAppend(Pretty(Value(head, logs, dropped), 0), "\n");
  }

  datatype Export = Written(text: string, kept: seq<Json>, dropped: nat) | Refused

  /**
     Drops entries from the front until the estimate is within the limit.  What is kept is the rest of the
     log, the count is exact, no entry is dropped without need, and a written file is within the limit.
   */
  method ExportDiagnostics(head: seq<Field>, logs: seq<Json>) returns (r: Export, estimate: nat)
    requires |logs| <= MAX_LOGS && OneLineEntries(logs)
    ensures r.Written? ==> r.dropped <= |logs| && r.kept == logs[r.dropped..] && r.text == FileText(head, r.kept, r.dropped) && Size(r.text) <= MAX_BYTES
    ensures r.Written? ==> forall k | 0 <= k < r.dropped :: Estimate(head, logs[k..]) > MAX_BYTES
    ensures (exists k | 0 <= k <= |logs| :: Estimate(head, logs[k..]) <= MAX_BYTES) ==> r.Written? && estimate <= MAX_BYTES
    ensures r.Written? ==> Size(r.text) <= estimate <= Size(r.text) + 16
  {
    hide Size, Pretty, EntrySizes, FileText, OneLineLeaves;
    var bytes := Estimate(head, logs);
    var first := 0;
    assert logs[0..] == logs;
    while bytes > MAX_BYTES && first < |logs|
      invariant 0 <= first <= |logs| && bytes == Estimate(head, logs[first..])
      invariant forall k | 0 <= k < first :: Estimate(head, logs[k..]) > MAX_BYTES
    {
      EntrySizesStep(logs, first);
      bytes := bytes - (EntrySize(logs[first]) + 2);
      first := first + 1;
    }
    estimate := bytes;
    EstimateBounds(head, logs[first..], first);
    var text := FileText(head, logs[first..], first);
    if Size(text) > MAX_BYTES { return Refused, estimate; }
    return Written(text, logs[first..], first), estimate;
  }

  lemma EntrySizesStep(logs: seq<Json>, i: nat)
    requires i < |logs|
    ensures EntrySizes(logs[i..]) == EntrySize(logs[i]) + EntrySizes(logs[i + 1..])
  {
    assert logs[i..][1..] == logs[i + 1..];
  }
}
