/** Whether a caller reuses a session, is signed in, or is refused, from a node's status. */
module LoginDecision {
  import opened Prelude

  datatype Row = Row(sid: string, state: string, locked: Option<bool>, session: nat, user: string)

  /** A row that is not an object is None; an absent field reads as empty or None. */
  datatype Status = Status(paused: Option<bool>, sessions: Option<seq<Option<Row>>>, ready: bool, backendSid: string)

  datatype Reason = Paused | StateUnknown | Ambiguous | Disconnected | Locked | NotReady | Conflict | BackendUnavailable

  datatype Decision = Refuse(reason: Reason) | Reuse(row: Row) | SignIn

  predicate Known(row: Option<Row>) {
    row.Some? && row.value.sid != ""
  }

  predicate Fit(row: Row) {
    row.state == "active" && row.locked == Some(false)
  }

  /** The only session of this account, among sessions all known. */
  ghost predicate Sole(rows: multiset<Option<Row>>, sid: string, row: Row) {
    && (forall r :: r in rows ==> Known(r))
    && rows[Some(row)] == 1 && row.sid == sid
    && forall r :: r in rows && r.value.sid == sid ==> r == Some(row)
  }

  /** The first n rows are known and at most one of them is this account's. */
  predicate ClearUpTo(rows: seq<Option<Row>>, sid: string, n: nat)
    requires n <= |rows|
  {
    && (forall i :: 0 <= i < n ==> Known(rows[i]))
    && forall i, j :: 0 <= i < j < n ==> rows[i].value.sid != sid || rows[j].value.sid != sid
  }

  /** The list is clear up to a row that is not known. */
  predicate MeetsUnknown(rows: seq<Option<Row>>, sid: string) {
    exists n :: 0 <= n < |rows| && !Known(rows[n]) && ClearUpTo(rows, sid, n)
  }

  /** The list is clear up to a second session of this account. */
  predicate MeetsSecond(rows: seq<Option<Row>>, sid: string) {
    exists i, n :: 0 <= i < n < |rows| && Known(rows[n]) && rows[n].value.sid == sid && ClearUpTo(rows, sid, n) &&
      rows[i].value.sid == sid
  }

  /** The sessions of a node that is not paused and says what they are. */
  predicate Lists(status: Status) {
    status.paused == Some(false) && status.sessions.Some?
  }

  /**
   * Told apart by what is logged on: an empty, ready machine is signed in to; one fit
   * session of the account is reused; nobody else's session is ever replaced. Only
   * which of two defects of a list is named depends on the order of its rows.
   */
  method Decide(status: Status, sid: string) returns (d: Decision)
    ensures d == SignIn <==> Lists(status) && status.sessions == Some([]) && status.ready && status.backendSid == sid
    ensures forall row :: d == Reuse(row) <==>
              Lists(status) && Sole(multiset(status.sessions.value), sid, row) && Fit(row)
    ensures d.Reuse? <==>
              && status.paused == Some(false) && status.sessions.Some?
              && var rows := status.sessions.value;
                 && (forall i :: 0 <= i < |rows| ==> rows[i].Some? && rows[i].value.sid != "")
                 && exists i ::
                      && 0 <= i < |rows| && rows[i].value.sid == sid
                      && rows[i].value.state == "active" && rows[i].value.locked == Some(false)
                      && forall j :: 0 <= j < |rows| && j != i ==> rows[j].value.sid != sid
    ensures d.Reuse? ==>
              d.row.sid == sid && d.row.state == "active" && d.row.locked == Some(false) &&
                Some(d.row) in status.sessions.value
    ensures d == Refuse(Paused) <==> status.paused != Some(false)
    ensures d == Refuse(StateUnknown) <==>
              status.paused == Some(false) && (status.sessions.None? || MeetsUnknown(status.sessions.value, sid))
    ensures d == Refuse(Ambiguous) <==> Lists(status) && MeetsSecond(status.sessions.value, sid)
    ensures d == Refuse(Disconnected) <==>
              Lists(status) && exists row ::
                Sole(multiset(status.sessions.value), sid, row) && row.state == "disconnected"
    ensures d == Refuse(Locked) <==>
              Lists(status) && exists row ::
                Sole(multiset(status.sessions.value), sid, row) && row.state != "disconnected" &&
                  row.locked == Some(true)
    ensures d == Refuse(NotReady) <==>
              Lists(status) && exists row ::
                Sole(multiset(status.sessions.value), sid, row) && row.state != "disconnected" &&
                  row.locked != Some(true) && !Fit(row)
    ensures d == Refuse(Conflict) <==>
              Lists(status) && status.sessions.value != [] && forall r :: r in status.sessions.value ==>
                Known(r) && r.value.sid != sid
    ensures d == Refuse(BackendUnavailable) <==>
              Lists(status) && status.sessions == Some([]) && (!status.ready || status.backendSid != sid)
  {
    hide Sole, MeetsUnknown, MeetsSecond;
    if status.paused != Some(false) {
      return Refuse(Paused);
    }
    if status.sessions.None? {
      return Refuse(StateUnknown);
    }
    var rows := status.sessions.value;
    var found: Option<Row>;
    ghost var at: nat;
    found, at := None, 0;
    for i := 0 to |rows|
      invariant ClearUpTo(rows, sid, i)
      invariant found.None? ==> forall j :: 0 <= j < i ==> rows[j].value.sid != sid
      invariant found.Some? ==> at < i && rows[at] == found && found.value.sid == sid
    {
      if !Known(rows[i]) {
        UnknownSettles(rows, sid, i);
        return Refuse(StateUnknown);
      }
      if rows[i].value.sid == sid {
        if found.Some? {
          SecondSettles(rows, sid, at, i);
          return Refuse(Ambiguous);
        }
        found, at := rows[i], i;
      }
    }
    ClearSettles(rows, sid);
    if found.Some? {
      var row := found.value;
      FoundIsSole(rows, sid, at);
      if row.state == "disconnected" {
        return Refuse(Disconnected);
      }
      if row.locked == Some(true) {
        return Refuse(Locked);
      }
      if row.state != "active" || row.locked != Some(false) {
        return Refuse(NotReady);
      }
      return Reuse(row);
    }
    NoneIsSole(rows, sid);
    if |rows| > 0 {
      return Refuse(Conflict);
    }
    if !status.ready || status.backendSid != sid {
      return Refuse(BackendUnavailable);
    }
    return SignIn;
  }

  lemma UnknownSettles(rows: seq<Option<Row>>, sid: string, n: nat)
    requires n < |rows| && !Known(rows[n]) && ClearUpTo(rows, sid, n)
    ensures MeetsUnknown(rows, sid) && !MeetsSecond(rows, sid) && forall row :: !Sole(multiset(rows), sid, row)
    ensures exists r :: r in rows && !Known(r)
  {
    assert rows[n] in multiset(rows);
  }

  lemma SecondSettles(rows: seq<Option<Row>>, sid: string, i: nat, n: nat)
    requires i < n < |rows| && Known(rows[n]) && rows[n].value.sid == sid && ClearUpTo(rows, sid, n) &&
             rows[i].value.sid == sid
    ensures MeetsSecond(rows, sid) && !MeetsUnknown(rows, sid) && forall row :: !Sole(multiset(rows), sid, row)
    ensures exists r :: r in rows && Known(r) && r.value.sid == sid
  {
    assert rows == rows[..n] + [rows[n]] + rows[n + 1..];
    assert rows[i] in multiset(rows[..n]) && rows[i] in multiset(rows) && rows[n] in multiset(rows);
  }

  lemma ClearSettles(rows: seq<Option<Row>>, sid: string)
    requires ClearUpTo(rows, sid, |rows|)
    ensures !MeetsUnknown(rows, sid) && !MeetsSecond(rows, sid)
  {
  }

  lemma FoundIsSole(rows: seq<Option<Row>>, sid: string, at: nat)
    requires ClearUpTo(rows, sid, |rows|) && at < |rows| && rows[at].value.sid == sid
    ensures forall row :: Sole(multiset(rows), sid, row) <==> Some(row) == rows[at]
    ensures rows[at] in rows
  {
    assert rows == rows[..at] + [rows[at]] + rows[at + 1..];
    assert rows[at] !in rows[..at] && rows[at] !in rows[at + 1..];
    assert multiset(rows)[rows[at]] == 1;
    forall r | r in multiset(rows) ensures Known(r) && (r.value.sid == sid ==> r == rows[at]) {
      var j :| 0 <= j < |rows| && rows[j] == r;
    }
  }

  lemma NoneIsSole(rows: seq<Option<Row>>, sid: string)
    requires ClearUpTo(rows, sid, |rows|) && forall j :: 0 <= j < |rows| ==> rows[j].value.sid != sid
    ensures forall row :: !Sole(multiset(rows), sid, row)
  {
    forall row ensures !Sole(multiset(rows), sid, row) {
      if Some(row) in multiset(rows) {
        assert Some(row) in rows;
      }
    }
  }
}
