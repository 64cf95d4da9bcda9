/** Merging what several Grok leaders say about sessions into the rows read from disk. */
module RosterMerge {
  import opened Basics
  import opened DisplayText
  import opened Sessions

  /** The fields of a session that a roster may write. */
  datatype Session = Session(id: Text, title: Text, cwd: Text, status: Status, createdAtMs: int, updatedAtMs: int,
                             summary: Text, pid: Option<nat>, daemonHosted: bool)

  /** One element of a leader's answer: anything that does not decode is `Malformed`. */
  datatype RosterValue =
    | Malformed
    | RosterEntry(sessionId: Text, title: Option<Text>, cwd: Text, activity: string, resident: bool,
                  lastChangeUnixMs: int, lastTurnSummary: Option<Text>)

  predicate IsWhitespace(c: Scalar) {
    || 0x9 <= c <= 0xD
    || c == 0x20
    || c == 0x85
    || c == 0xA0
    || c == 0x1680
    || 0x2000 <= c <= 0x200A
    || 0x2028 <= c <= 0x2029
    || c == 0x202F
    || c == 0x205F
    || c == 0x3000
  }

  /** What trimming leaves empty. */
  predicate IsBlank(text: Text) {
    forall i :: 0 <= i < |text| ==> IsWhitespace(text[i])
  }

  predicate IsTerminalSafe(text: Text) {
    forall i :: 0 <= i < |text| ==>
      var c := text[i];
      !(c <= 0x1F || 0x7F <= c <= 0x9F || c == 0x61C || 0x200E <= c <= 0x200F || 0x202A <= c <= 0x202E
        || 0x2066 <= c <= 0x2069)
  }

  predicate IsAdmitted(value: RosterValue): (admitted: bool)
    ensures admitted ==> value.RosterEntry?
  {
    && value.RosterEntry?
    && !IsBlank(value.sessionId) && !IsBlank(value.cwd)
    && IsTerminalSafe(value.sessionId) && IsTerminalSafe(value.cwd)
  }

  function StatusOf(activity: string): Status {
    if activity == "working" then Working
    else if activity == "idle" || activity == "dormant" then Idle
    else if activity == "needs_input" then NeedsInput(None)
    else if activity == "completed" then Done
    else if activity == "dead" then Error
    else Unknown
  }

  /** The two filters are written apart: what the display filter leaves is safe for the terminal. */
  lemma KeptIsTerminalSafe(text: Text)
    ensures IsTerminalSafe(Kept(text))
  {
    KeptIsSafe(text);
  }

  // ---------------------------------------------------------------- one entry

  datatype State = State(sessions: seq<Session>, statuses: map<Text, Status>)

  /** The place of the first row with this id; the number of rows if there is none. */
  function Find(sessions: seq<Session>, id: Text): (k: nat)
    ensures k <= |sessions| && (k < |sessions| ==> sessions[k].id == id)
    ensures forall i :: 0 <= i < k ==> sessions[i].id != id
  {
    if sessions == [] then 0
    else if sessions[0].id == id then 0
    else Find(sessions[1..], id) + 1
  }

  /** The rosters' joint status for an id after one more entry, and whether that entry disagreed. */
  function Join(previous: Option<Status>, status: Status): (Status, bool) {
    if previous.Some? && previous.value != status then (Unknown, true) else (status, false)
  }

  function Lookup(statuses: map<Text, Status>, id: Text): Option<Status> {
    if id in statuses then Some(statuses[id]) else None
  }

  predicate Blank(text: Option<Text>) {
    text.None? || IsBlank(text.value)
  }

  /** The non-blank text as shown, or the other one. */
  function Shown(text: Option<Text>, otherwise: Text): Text {
    if Blank(text) then otherwise else Kept(text.value)
  }

  function NewStatus(row: Status, entry: Status, joint: Status, conflict: bool): Status {
    if entry == Idle && !conflict && (row.Done? || row.Error?) then row else joint
  }

  function Updated(row: Session, entry: RosterValue, joint: Status, conflict: bool): Session
    requires entry.RosterEntry?
  {
    Session(row.id, Shown(entry.title, row.title), entry.cwd,
            NewStatus(row.status, StatusOf(entry.activity), joint, conflict),
            row.createdAtMs, entry.lastChangeUnixMs, Shown(entry.lastTurnSummary, row.summary), None, entry.resident)
  }

  function NewRow(entry: RosterValue, joint: Status): Session
    requires entry.RosterEntry?
  {
    Session(entry.sessionId, Shown(entry.title, Kept(entry.sessionId)), entry.cwd, joint, entry.lastChangeUnixMs,
            entry.lastChangeUnixMs, if entry.lastTurnSummary.Some? then Kept(entry.lastTurnSummary.value) else [],
            None, entry.resident)
  }

  function MergeOne(s: State, value: RosterValue): State {
    if !IsAdmitted(value) then s
    else
      var (joint, conflict) := Join(Lookup(s.statuses, value.sessionId), StatusOf(value.activity));
      var k := Find(s.sessions, value.sessionId);
      State(if k < |s.sessions| then s.sessions[k := Updated(s.sessions[k], value, joint, conflict)]
            else s.sessions + [NewRow(value, joint)],
            s.statuses[value.sessionId := joint])
  }

  function MergeAll(s: State, values: seq<RosterValue>): State {
    if values == [] then s else MergeOne(MergeAll(s, values[..|values| - 1]), values[|values| - 1])
  }

  // ---------------------------------------------------------------- the loop

  class Rosters {
    var sessions: seq<Session>
    var statuses: map<Text, Status>

    function Contents(): State
      reads this
    {
      State(sessions, statuses)
    }

    constructor (durable: seq<Session>)
      ensures Contents() == State(durable, map[])
    {
      sessions, statuses := durable, map[];
    }

    method Merge(entries: seq<RosterValue>)
      modifies this
      ensures Contents() == MergeAll(old(Contents()), entries)
    {
      hide IsAdmitted, Find, NewStatus, Shown, StatusOf;
      for i := 0 to |entries|
        invariant Contents() == MergeAll(old(Contents()), entries[..i])
      {
        var entry := entries[i];
        assert entries[..i + 1][..i] == entries[..i];
        if !IsAdmitted(entry) {
          continue;
        }
        var (status, conflict) := Join(Lookup(statuses, entry.sessionId), StatusOf(entry.activity));
        statuses := statuses[entry.sessionId := status];
        var k := Find(sessions, entry.sessionId);
        if k < |sessions| {
          sessions := sessions[k := Updated(sessions[k], entry, status, conflict)];
        } else {
          sessions := sessions + [NewRow(entry, status)];
        }
      }
      assert entries[..|entries|] == entries;
    }
  }

  // ---------------------------------------------------------------- what it comes to

  /** The statuses reported for one id, in order. */
  function Reports(values: seq<RosterValue>, id: Text): seq<Status> {
    if values == [] then []
    else
      var last := values[|values| - 1];
      Reports(values[..|values| - 1], id)
      + if IsAdmitted(last) && last.sessionId == id then [StatusOf(last.activity)] else []
  }

  predicate Agree(reports: seq<Status>) {
    forall s, t :: s in reports && t in reports ==> s == t
  }

  function Consensus(reports: seq<Status>): Option<Status> {
    if reports == [] then None else if Agree(reports) then Some(reports[0]) else Some(Unknown)
  }

  function Row(sessions: seq<Session>, id: Text): Option<Session> {
    var k := Find(sessions, id);
    if k < |sessions| then Some(sessions[k]) else None
  }

  /** The status of the row with this id, if there is one. */
  function RowStatus(sessions: seq<Session>, id: Text): Option<Status> {
    var row := Row(sessions, id);
    if row.Some? then Some(row.value.status) else None
  }

  /** Agreed reports decide, except that agreed idleness does not hide how the session ended;
      reports that disagree decide nothing. */
  function Verdict(durable: Option<Status>, reports: seq<Status>): Option<Status> {
    if reports == [] then durable
    else if !Agree(reports) then Some(Unknown)
    else if reports[0] == Idle && durable.Some? && (durable.value.Done? || durable.value.Error?) then durable
    else Some(reports[0])
  }

  lemma ConsensusOfOneMore(reports: seq<Status>, status: Status)
    ensures Consensus(reports + [status]) == Some(Join(Consensus(reports), status).0)
    ensures Join(Consensus(reports), status).1 ==> !Agree(reports + [status])
  {
    var more := reports + [status];
    assert more[|reports|] == status;
    assert status in more && forall s :: s in reports ==> s in more;
    if reports != [] {
      assert more[0] == reports[0] && reports[0] in more;
      if Agree(reports) {
        forall s | s in more ensures s == status || s == reports[0] {
          assert reports[0] in reports && (s in reports || s == status);
        }
      } else {
        var s, t :| s in reports && t in reports && s != t;
        assert s in more && t in more;
      }
    }
  }

  lemma VerdictOfOneMore(durable: Option<Status>, reports: seq<Status>, status: Status)
    ensures var (joint, conflict) := Join(Consensus(reports), status);
            var before := Verdict(durable, reports);
            Verdict(durable, reports + [status]) ==
            Some(if before.Some? then NewStatus(before.value, status, joint, conflict) else joint)
  {
    ConsensusOfOneMore(reports, status);
    var more := reports + [status];
    assert more[|reports|] == status;
    if reports != [] {
      assert more[0] == reports[0];
    }
  }

  lemma FindUpdated(sessions: seq<Session>, k: nat, row: Session, id: Text)
    requires k < |sessions| && row.id == sessions[k].id
    ensures Find(sessions[k := row], id) == Find(sessions, id)
  {
    hide Find;
    var other := sessions[k := row];
    var a, b := Find(sessions, id), Find(other, id);
    assert a < |sessions| ==> other[a].id == id;
    assert b < |sessions| ==> sessions[b].id == id;
  }

  lemma FindPushed(sessions: seq<Session>, row: Session, id: Text)
    ensures Find(sessions + [row], id) ==
            if Find(sessions, id) == |sessions| && row.id != id then |sessions| + 1 else Find(sessions, id)
  {
    hide Find;
    var other := sessions + [row];
    var a, b := Find(sessions, id), Find(other, id);
    assert a < |sessions| ==> other[a] == sessions[a];
    assert other[|sessions|] == row;
  }

  /** One entry, seen from any one id. */
  lemma OneEntrySeen(s: State, value: RosterValue, id: Text)
    ensures var t := MergeOne(s, value);
            if IsAdmitted(value) && value.sessionId == id then
              var (joint, conflict) := Join(Lookup(s.statuses, id), StatusOf(value.activity));
              var before := Row(s.sessions, id);
              && Lookup(t.statuses, id) == Some(joint)
              && Row(t.sessions, id) ==
                 Some(if before.Some? then Updated(before.value, value, joint, conflict) else NewRow(value, joint))
            else
              Lookup(t.statuses, id) == Lookup(s.statuses, id) && Row(t.sessions, id) == Row(s.sessions, id)
  {
    hide IsAdmitted, Find, StatusOf, Join, NewStatus, Shown, IsBlank;
    if IsAdmitted(value) {
      var (joint, conflict) := Join(Lookup(s.statuses, value.sessionId), StatusOf(value.activity));
      var k := Find(s.sessions, value.sessionId);
      if k < |s.sessions| {
        FindUpdated(s.sessions, k, Updated(s.sessions[k], value, joint, conflict), id);
      } else {
        FindPushed(s.sessions, NewRow(value, joint), id);
      }
    }
  }

  /** The status any row ends with, after any number of leaders. */
  lemma {:induction false} StatusIsTheVerdict(durable: seq<Session>, values: seq<RosterValue>, id: Text)
    ensures var s := MergeAll(State(durable, map[]), values);
            && Lookup(s.statuses, id) == Consensus(Reports(values, id))
            && RowStatus(s.sessions, id) == Verdict(RowStatus(durable, id), Reports(values, id))
  {
    hide IsAdmitted, Row, StatusOf, MergeOne, Join, Verdict, Consensus, NewStatus, Shown;
    if values == [] {
      NoReports(RowStatus(durable, id));
    } else {
      var init, last := values[..|values| - 1], values[|values| - 1];
      StatusIsTheVerdict(durable, init, id);
      OneEntrySeen(MergeAll(State(durable, map[]), init), last, id);
      if IsAdmitted(last) && last.sessionId == id {
        ConsensusOfOneMore(Reports(init, id), StatusOf(last.activity));
        VerdictOfOneMore(RowStatus(durable, id), Reports(init, id), StatusOf(last.activity));
      } else {
        assert Reports(init, id) + [] == Reports(init, id);
      }
    }
  }

  lemma NoReports(durable: Option<Status>)
    ensures Consensus([]) == None && Verdict(durable, []) == durable
  {
  }

  /** Which rows there are in the end: those from disk, and one for each id that some entry reports whose
      id and directory are neither blank nor unsafe to show. */
  lemma {:induction false} RowsThatExist(durable: seq<Session>, values: seq<RosterValue>, id: Text)
    ensures Row(MergeAll(State(durable, map[]), values).sessions, id).Some? <==>
              || Row(durable, id).Some?
              || exists v :: v in values && v.RosterEntry? && v.sessionId == id
                             && !IsBlank(id) && !IsBlank(v.cwd) && IsTerminalSafe(id) && IsTerminalSafe(v.cwd)
  {
    hide Row, StatusOf, MergeOne, Join, NewStatus, Shown, IsBlank, IsTerminalSafe;
    if values != [] {
      var init, last := values[..|values| - 1], values[|values| - 1];
      RowsThatExist(durable, init, id);
      OneEntrySeen(MergeAll(State(durable, map[]), init), last, id);
      assert values == init + [last];
    }
  }

  /** Leaders one after another are one long list of entries. */
  lemma {:induction false} LeadersAppend(s: State, first: seq<RosterValue>, second: seq<RosterValue>)
    ensures MergeAll(s, first + second) == MergeAll(MergeAll(s, first), second)
  {
    hide MergeOne;
    if second == [] {
      assert first + second == first;
    } else {
      var init := second[..|second| - 1];
      LeadersAppend(s, first, init);
      assert (first + second)[..|first + second| - 1] == first + init;
    }
  }

  lemma {:induction false} ReportsMembers(values: seq<RosterValue>, id: Text, status: Status)
    ensures status in Reports(values, id) <==>
            exists v :: v in values && IsAdmitted(v) && v.sessionId == id && StatusOf(v.activity) == status
  {
    hide IsAdmitted, StatusOf;
    if values != [] {
      var init, last := values[..|values| - 1], values[|values| - 1];
      ReportsMembers(init, id, status);
      assert values == init + [last];
    }
  }

  lemma VerdictByMembers(durable: Option<Status>, a: seq<Status>, b: seq<Status>)
    requires forall s :: s in a <==> s in b
    ensures Verdict(durable, a) == Verdict(durable, b)
  {
    assert a != [] ==> a[0] in b;
    assert b != [] ==> b[0] in a;
  }

  /** Neither the order of the entries nor repetition matters to the status of any row. */
  lemma OrderDoesNotMatter(durable: seq<Session>, a: seq<RosterValue>, b: seq<RosterValue>, id: Text)
    requires forall v :: v in a <==> v in b
    ensures RowStatus(MergeAll(State(durable, map[]), a).sessions, id) ==
            RowStatus(MergeAll(State(durable, map[]), b).sessions, id)
  {
    hide *;
    StatusIsTheVerdict(durable, a, id);
    StatusIsTheVerdict(durable, b, id);
    forall status ensures status in Reports(a, id) <==> status in Reports(b, id) {
      ReportsMembers(a, id, status);
      ReportsMembers(b, id, status);
    }
    VerdictByMembers(RowStatus(durable, id), Reports(a, id), Reports(b, id));
  }

  /** For everything but the status the last entry decides; a blank title or summary leaves the one
      before. */
  lemma {:induction false} LastEntryWins(durable: seq<Session>, before: seq<RosterValue>, last: RosterValue,
      after: seq<RosterValue>)
    requires IsAdmitted(last)
    requires forall v :: v in after && IsAdmitted(v) ==> v.sessionId != last.sessionId
    ensures var was := Row(MergeAll(State(durable, map[]), before).sessions, last.sessionId);
            var row := Row(MergeAll(State(durable, map[]), before + [last] + after).sessions, last.sessionId);
            && row.Some? && row.value.cwd == last.cwd && row.value.updatedAtMs == last.lastChangeUnixMs
            && row.value.daemonHosted == last.resident && row.value.pid == None
            && row.value.createdAtMs == (if was.Some? then was.value.createdAtMs else last.lastChangeUnixMs)
            && (!Blank(last.title) ==> row.value.title == Kept(last.title.value))
            && (Blank(last.title) ==> row.value.title == if was.Some? then was.value.title else Kept(last.sessionId))
            && (!Blank(last.lastTurnSummary) ==> row.value.summary == Kept(last.lastTurnSummary.value))
            && (Blank(last.lastTurnSummary) && was.Some? ==> row.value.summary == was.value.summary)
  {
    hide IsAdmitted, IsBlank, Row, Join, NewStatus, StatusOf, Kept, MergeOne;
    var all := before + [last] + after;
    var init := all[..|all| - 1];
    assert MergeAll(State(durable, map[]), all) == MergeOne(MergeAll(State(durable, map[]), init), all[|all| - 1]);
    OneEntrySeen(MergeAll(State(durable, map[]), init), all[|all| - 1], last.sessionId);
    if after == [] {
      assert init == before;
    } else {
      assert init == before + [last] + after[..|after| - 1];
      LastEntryWins(durable, before, last, after[..|after| - 1]);
    }
  }

  /** Rows are never lost or moved, and a row is added only for an admitted id that had none. */
  lemma {:induction false} RowsArePreserved(durable: seq<Session>, values: seq<RosterValue>)
    ensures var t := MergeAll(State(durable, map[]), values).sessions;
            && |durable| <= |t|
            && (forall i :: 0 <= i < |durable|
                    ==> t[i].id == durable[i].id && t[i].createdAtMs == durable[i].createdAtMs)
            && forall i :: |durable| <= i < |t| ==> Find(t, t[i].id) == i && Reports(values, t[i].id) != []
  {
    hide IsAdmitted, StatusOf, Join, NewStatus, Shown, Find;
    if values != [] {
      var init, last := values[..|values| - 1], values[|values| - 1];
      RowsArePreserved(durable, init);
      if IsAdmitted(last) {
        var s := MergeAll(State(durable, map[]), init);
        var t := MergeOne(s, last);
        var k := Find(s.sessions, last.sessionId);
        forall i | |durable| <= i < |t.sessions| ensures Find(t.sessions, t.sessions[i].id) == i {
          if k < |s.sessions| {
            FindUpdated(s.sessions, k, t.sessions[k], t.sessions[i].id);
          } else {
            FindPushed(s.sessions, t.sessions[k], t.sessions[i].id);
          }
        }
      }
    }
  }
}
