/** The event ledger (`access_logs`) and the alert queue (`alerts`): how an entry is
    formatted, how the control panel splits it back into columns, which entries it shows,
    and which alerts are still waiting for acknowledgement. */
module Ledger {
  import opened Wrappers

  /** Text without a comma: the timestamp, event type and user columns of an entry. */
  type CommaFree = s: string | ',' !in s

  /** One reading of the clock, taken when a handler runs: `now` is `time.time()` in whole
      seconds, `stamp` the log timestamp ("%Y-%m-%d %H:%M:%S"), `clock` the alert time
      ("%H:%M:%S"). */
  datatype Reading = Reading(now: int, stamp: CommaFree, clock: string)

  /** The event types the application logs under. */
  datatype EventType = Access | SecurityAlert | SystemError | SystemEvent | AdminAction | ApplianceControl
  {
    function Name(): CommaFree {
      match this
      case Access => "Access"
      case SecurityAlert => "Security Alert"
      case SystemError => "System Error"
      case SystemEvent => "System Event"
      case AdminAction => "Admin Action"
      case ApplianceControl => "Appliance Control"
    }
  }

  /** The four columns of a ledger entry, before they are joined into one line. */
  datatype LogRecord = LogRecord(timestamp: CommaFree, event: CommaFree, user: CommaFree, details: string)

  /** The line `log_event` appends: the four columns joined by commas. */
  function Entry(rec: LogRecord): string {
    rec.timestamp + "," + rec.event + "," + rec.user + "," + rec.details
  }

  /** The columns of a record, as the control panel's table shows them. */
  function Columns(rec: LogRecord): seq<string> {
    [rec.timestamp, rec.event, rec.user, rec.details]
  }

  /** Position of the first comma, if any. */
  function FirstComma(s: string): Option<nat> {
    if s == [] then None
    else if s[0] == ',' then Some(0)
    else match FirstComma(s[1..])
      case None => None
      case Some(i) => Some(i + 1)
  }

  /** `FirstComma` finds the first comma, and finds none only in text without one. */
  lemma {:induction false} FirstCommaFinds(s: string)
    ensures FirstComma(s).None? ==> ',' !in s
    ensures FirstComma(s).Some? ==>
      var i := FirstComma(s).value; i < |s| && s[i] == ',' && ',' !in s[..i]
  {
    if s != [] && s[0] != ',' {
      FirstCommaFinds(s[1..]);
      assert s == [s[0]] + s[1..];
      if FirstComma(s).Some? {
        var i := FirstComma(s).value;
        assert s[..i] == [s[0]] + s[1..][..i - 1];
      }
    }
  }

  /** The first comma of `a + "," + b`, when `a` has none, is the one after `a`. */
  lemma {:induction false} FirstCommaAfter(a: string, b: string)
    requires ',' !in a
    ensures FirstComma(a + "," + b) == Some(|a|)
  {
    if a != [] {
      assert (a + "," + b)[1..] == a[1..] + "," + b;
      FirstCommaAfter(a[1..], b);
    }
  }

  /** The pieces joined back with commas: the inverse of Split. */
  function Join(parts: seq<string>): string
    requires |parts| >= 1
  {
    if |parts| == 1 then parts[0] else parts[0] + "," + Join(parts[1..])
  }

  /** Python's `s.split(",", maxSplit)`: cut at the first `maxSplit` commas, from the left. */
  function Split(s: string, maxSplit: nat): (parts: seq<string>)
    decreases maxSplit
    ensures 1 <= |parts| <= maxSplit + 1
  {
    if maxSplit == 0 then [s]
    else match FirstComma(s)
      case None => [s]
      case Some(i) =>
        assert i < |s| by { FirstCommaFinds(s); }
        [s[..i]] + Split(s[i + 1..], maxSplit - 1)
  }

  /** Splitting loses nothing: joining the pieces gives the line back. */
  lemma {:induction false} SplitJoin(s: string, maxSplit: nat)
    decreases maxSplit
    ensures Join(Split(s, maxSplit)) == s
  {
    if maxSplit != 0 && FirstComma(s).Some? {
      var i := FirstComma(s).value;
      FirstCommaFinds(s);
      var head, after := s[..i], s[i + 1..];
      SplitJoin(after, maxSplit - 1);
      var parts := Split(s, maxSplit);
      assert parts[1..] == Split(after, maxSplit - 1);
      assert head + "," + after == s;
    }
  }

  /** Splitting at the first comma of `a + "," + b` when `a` has none. */
  lemma SplitAfterCommaFree(a: string, b: string, n: nat)
    requires ',' !in a && n > 0
    ensures Split(a + "," + b, n) == [a] + Split(b, n - 1)
  {
    var s := a + "," + b;
    FirstCommaAfter(a, b);
    assert s[..|a|] == a;
    assert s[|a| + 1..] == b;
  }

  /** The ledger round trip: `Entry(rec).split(",", 3)` gives back the four columns, with
      the details column verbatim even when it contains commas. */
  lemma SplitEntry(rec: LogRecord)
    ensures Split(Entry(rec), 3) == Columns(rec)
  {
    var tail := rec.user + "," + rec.details;
    var middle := rec.event + "," + tail;
    assert Entry(rec) == rec.timestamp + "," + middle;
    SplitAfterCommaFree(rec.timestamp, middle, 3);
    SplitAfterCommaFree(rec.event, tail, 2);
    SplitAfterCommaFree(rec.user, rec.details, 1);
  }

  /** How many entries the control panel shows. */
  const DisplayedEntries: nat := 10

  /** `access_logs[-10:]`: the most recent entries, oldest first. */
  function Recent<T>(logs: seq<T>): (shown: seq<T>)
    ensures |shown| == if |logs| < DisplayedEntries then |logs| else DisplayedEntries
    ensures forall i :: 0 <= i < |shown| ==> shown[i] == logs[|logs| - |shown| + i]
  {
    if |logs| <= DisplayedEntries then logs else logs[|logs| - DisplayedEntries..]
  }

  /** Every line of the ledger is a formatted record, so it splits into the four columns. */
  ghost predicate WellFormed(logs: seq<string>) {
    forall i :: 0 <= i < |logs| ==> IsEntry(logs[i])
  }

  /** The line is one `log_event` writes for some record. */
  ghost predicate IsEntry(line: string) {
    exists rec: LogRecord :: Entry(rec) == line
  }

  /** Each entry split into its columns: `[log.split(",", 3) for log in logs]`. */
  function SplitRows(logs: seq<string>): (rows: seq<seq<string>>)
    ensures |rows| == |logs|
    ensures forall i :: 0 <= i < |logs| ==> rows[i] == Split(logs[i], 3)
  {
    if logs == [] then [] else SplitRows(logs[..|logs| - 1]) + [Split(logs[|logs| - 1], 3)]
  }

  /** The rows of the control panel's log table: the last ten entries, split, oldest first. */
  function LogRows(logs: seq<string>): (rows: seq<seq<string>>)
    ensures |rows| == |Recent(logs)|
  {
    SplitRows(Recent(logs))
  }

  /** Row `i` of the table is entry `|logs| - |rows| + i` split. */
  lemma LogRowsAreRecentSplits(logs: seq<string>)
    ensures forall i :: 0 <= i < |LogRows(logs)| ==>
      LogRows(logs)[i] == Split(logs[|logs| - |LogRows(logs)| + i], 3)
  {
    var shown := Recent(logs);
    var rows := LogRows(logs);
    forall i | 0 <= i < |rows|
      ensures rows[i] == Split(logs[|logs| - |rows| + i], 3)
    {
      assert rows[i] == Split(shown[i], 3);
    }
  }

  /** A formatted line splits into exactly four columns. */
  lemma EntryHasFourColumns(line: string)
    requires IsEntry(line)
    ensures |Split(line, 3)| == 4
  {
    var rec: LogRecord :| Entry(rec) == line;
    SplitEntry(rec);
  }

  /** On a well-formed ledger every row of the table has the four columns it names. */
  lemma LogRowsHaveFourColumns(logs: seq<string>)
    requires WellFormed(logs)
    ensures forall i :: 0 <= i < |LogRows(logs)| ==> |LogRows(logs)[i]| == 4
  {
    LogRowsAreRecentSplits(logs);
    var rows := LogRows(logs);
    forall i | 0 <= i < |rows|
      ensures |rows[i]| == 4
    {
      var line := logs[|logs| - |rows| + i];
      assert rows[i] == Split(line, 3);
      EntryHasFourColumns(line);
    }
  }

  /** The lines written for a run of records. */
  function Entries(recs: seq<LogRecord>): (logs: seq<string>)
    ensures |logs| == |recs|
    ensures forall i :: 0 <= i < |recs| ==> logs[i] == Entry(recs[i])
  {
    if recs == [] then [] else Entries(recs[..|recs| - 1]) + [Entry(recs[|recs| - 1])]
  }

  /** The columns of a run of records. */
  function ColumnRows(recs: seq<LogRecord>): (rows: seq<seq<string>>)
    ensures |rows| == |recs|
    ensures forall i :: 0 <= i < |recs| ==> rows[i] == Columns(recs[i])
  {
    if recs == [] then [] else ColumnRows(recs[..|recs| - 1]) + [Columns(recs[|recs| - 1])]
  }

  /** Splitting the lines written for some records gives back their columns. */
  lemma {:induction false} SplitRowsOfEntries(recs: seq<LogRecord>)
    ensures SplitRows(Entries(recs)) == ColumnRows(recs)
  {
    if recs != [] {
      var init := recs[..|recs| - 1];
      var logs := Entries(recs);
      SplitRowsOfEntries(init);
      assert logs[..|logs| - 1] == Entries(init);
      SplitEntry(recs[|recs| - 1]);
    }
  }

  /** The most recent lines are the lines of the most recent records. */
  lemma RecentEntries(recs: seq<LogRecord>)
    ensures Recent(Entries(recs)) == Entries(Recent(recs))
  {
  }

  /** A ledger written from records reads back, in the table, as the columns of the
      (at most ten) most recent records. */
  lemma TableShowsRecentRecords(recs: seq<LogRecord>)
    ensures LogRows(Entries(recs)) == ColumnRows(Recent(recs))
  {
    RecentEntries(recs);
    SplitRowsOfEntries(Recent(recs));
  }

  /** Appending a formatted entry keeps the ledger well formed. */
  lemma WellFormedAppend(logs: seq<string>, rec: LogRecord)
    requires WellFormed(logs)
    ensures WellFormed(logs + [Entry(rec)])
  {
    assert IsEntry(Entry(rec));
  }

  datatype Level = Info | Warning | Critical

  /** An entry of `st.session_state.alerts`. */
  datatype Alert = Alert(time: string, message: string, level: Level, acknowledged: bool)

  /** The alerts listed under "Active Alerts", in order. */
  function Unacknowledged(alerts: seq<Alert>): (active: seq<Alert>)
    ensures |active| <= |alerts|
    ensures forall k :: 0 <= k < |active| ==> !active[k].acknowledged
  {
    if alerts == [] then []
    else (if alerts[0].acknowledged then [] else [alerts[0]]) + Unacknowledged(alerts[1..])
  }

  /** Every alert still waiting for acknowledgement is listed. */
  lemma {:induction false} UnacknowledgedComplete(alerts: seq<Alert>)
    ensures forall k :: 0 <= k < |alerts| && !alerts[k].acknowledged ==> alerts[k] in Unacknowledged(alerts)
  {
    if alerts != [] {
      UnacknowledgedComplete(alerts[1..]);
      assert forall k :: 1 <= k < |alerts| ==> alerts[k] == alerts[1..][k - 1];
    }
  }

  /** Where the `i`-th active alert sits in the full list: the alert an "Ack" button
      with key `ack_i` flips. */
  function ActivePosition(alerts: seq<Alert>, i: nat): (j: nat)
    requires i < |Unacknowledged(alerts)|
    ensures j < |alerts| && !alerts[j].acknowledged
    ensures alerts[j] == Unacknowledged(alerts)[i]
    ensures |Unacknowledged(alerts[..j])| == i
  {
    var rest := alerts[1..];
    assert Unacknowledged(alerts) == (if alerts[0].acknowledged then [] else [alerts[0]]) + Unacknowledged(rest);
    if !alerts[0].acknowledged && i == 0 then
      assert alerts[..0] == [];
      0
    else
      var i' := if alerts[0].acknowledged then i else i - 1;
      var k := ActivePosition(rest, i');
      var prefix := alerts[..k + 1];
      assert prefix[0] == alerts[0] && prefix[1..] == rest[..k];
      assert Unacknowledged(prefix) == (if alerts[0].acknowledged then [] else [alerts[0]]) + Unacknowledged(rest[..k]);
      k + 1
  }

  /** The alert list after the `i`-th active alert is acknowledged. */
  function AcknowledgeActive(alerts: seq<Alert>, i: nat): seq<Alert>
    requires i < |Unacknowledged(alerts)|
  {
    var j := ActivePosition(alerts, i);
    alerts[j := alerts[j].(acknowledged := true)]
  }

  /** The active alerts of two concatenated lists. */
  lemma {:induction false} UnacknowledgedConcat(a: seq<Alert>, b: seq<Alert>)
    ensures Unacknowledged(a + b) == Unacknowledged(a) + Unacknowledged(b)
  {
    if a != [] {
      assert (a + b)[1..] == a[1..] + b;
      UnacknowledgedConcat(a[1..], b);
    } else {
      assert a + b == b;
    }
  }

  /** The active alerts of a list, seen around position `j`. */
  lemma {:induction false} UnacknowledgedAround(alerts: seq<Alert>, j: nat)
    requires j < |alerts|
    ensures Unacknowledged(alerts)
         == Unacknowledged(alerts[..j]) + (if alerts[j].acknowledged then [] else [alerts[j]]) + Unacknowledged(alerts[j + 1..])
  {
    var single, before, after := [alerts[j]], alerts[..j], alerts[j + 1..];
    assert alerts == before + (single + after);
    UnacknowledgedConcat(before, single + after);
    UnacknowledgedConcat(single, after);
    assert Unacknowledged(single) == if alerts[j].acknowledged then [] else single by {
      assert single[1..] == [];
    }
    var a, b, c := Unacknowledged(before), Unacknowledged(single), Unacknowledged(after);
    assert Unacknowledged(alerts) == a + (b + c);
    assert a + (b + c) == a + b + c;
  }

  /** Acknowledging flips a single alert: the active list loses exactly its `i`-th element,
      and every other alert keeps its place and value. */
  lemma {:induction false} AcknowledgeRemovesOne(alerts: seq<Alert>, i: nat)
    requires i < |Unacknowledged(alerts)|
    ensures |AcknowledgeActive(alerts, i)| == |alerts|
    ensures forall k :: 0 <= k < |alerts| && k != ActivePosition(alerts, i) ==> AcknowledgeActive(alerts, i)[k] == alerts[k]
    ensures Unacknowledged(AcknowledgeActive(alerts, i))
         == Unacknowledged(alerts)[..i] + Unacknowledged(alerts)[i + 1..]
  {
    var j := ActivePosition(alerts, i);
    var after := AcknowledgeActive(alerts, i);
    var before, rest := Unacknowledged(alerts[..j]), Unacknowledged(alerts[j + 1..]);
    UnacknowledgedAround(alerts, j);
    UnacknowledgedAround(after, j);
    assert after[..j] == alerts[..j];
    assert after[j + 1..] == alerts[j + 1..];
    var active := Unacknowledged(alerts);
    assert active == before + [alerts[j]] + rest;
    assert |before| == i;
    assert active[..i] == before;
    assert active[i + 1..] == rest;
    assert after[j].acknowledged;
    assert Unacknowledged(after) == before + [] + rest;
    assert before + [] + rest == before + rest;
  }
}
