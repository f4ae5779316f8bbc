/** The bounds an input sequence keeps before it is sent to a desktop. */
module InputBudget {
  import opened Prelude
  import opened Chord

  const PRESS := 80
  const MAX_DURATION := 10_000
  const MAX_IMAGES := 6
  const MAX_EVENTS := 16

  datatype Event = Event(kind: string, key: string, button: string, x: Option<int>, y: Option<int>, duration: int,
                         samples: int)

  datatype Interaction = Interaction(operation: string, leaseMs: int, events: seq<Event>)

  datatype Problem =
    | Missing | BadOperation | BadLease | TooManyEvents | EventsNotAccepted
    | BadRange | StrayField | BadKey | BadButton | BadMove | BadWait | Unsupported
    | TooLong | TooManyImages

  // ---------------------------------------------------------------- reference

  predicate OnlyKey(e: Event) {
    e.button == "" && e.x == None && e.y == None && e.duration == 0 && e.samples == 0
  }

  predicate Coordinate(c: Option<int>) {
    c.Some? && 0 <= c.value <= 16000
  }

  /** Each kind of event with the fields it takes, and no others. */
  predicate EventOk(e: Event) {
    if e.kind in {"key_down", "key_up", "key_press"} then
      OnlyKey(e) && IsInteractionKey(e.key)
    else if e.kind in {"button_down", "button_up"} then
      OnlyKey(e.(button := "")) && e.key == "" && e.button in {"left", "right", "middle"}
    else if e.kind == "move" then
      && e.key == "" && e.button == "" && Coordinate(e.x) && Coordinate(e.y)
      && 0 <= e.duration <= 3000 && 0 <= e.samples <= 4 && (e.samples > 0 ==> e.duration >= 100)
    else if e.kind == "wait" then
      OnlyKey(e.(duration := 0)) && e.key == "" && 1 <= e.duration <= 3000
    else e.kind == "capture" && OnlyKey(e) && e.key == ""
  }

  function Duration(e: Event): int {
    e.duration + if e.kind == "key_press" then PRESS else 0
  }

  function Images(e: Event): int {
    if e.kind == "move" then e.samples else if e.kind == "capture" then 1 else 0
  }

  function Sum(events: seq<Event>, weight: Event -> int): int {
    if events == [] then 0 else Sum(events[..|events| - 1], weight) + weight(events[|events| - 1])
  }

  predicate EventsOk(events: seq<Event>) {
    && |events| <= MAX_EVENTS
    && (forall e :: e in events ==> EventOk(e))
    && Sum(events, Duration) <= MAX_DURATION
    && Sum(events, Images) + 1 <= MAX_IMAGES
  }

  predicate Acceptable(i: Interaction) {
    && i.operation in {"begin", "continue", "observe", "release", "cancel"}
    && (i.leaseMs == 0 || 1000 <= i.leaseMs <= 60_000)
    && (i.events != [] ==> i.operation in {"begin", "continue"})
    && EventsOk(i.events)
  }

  // --------------------------------------------------------------- validation

  /** The checks of one event, in the order they are made. */
  method CheckEvent(e: Event) returns (problem: Option<Problem>)
    ensures problem == None <==> EventOk(e)
    ensures problem == Some(BadRange) <==> e.duration < 0 || e.duration > 3000 || e.samples < 0 || e.samples > 4
    ensures problem.Some? ==> problem.value in {BadRange, StrayField, BadKey, BadButton, BadMove, BadWait, Unsupported}
  {
    hide IsInteractionKey;
    if e.duration < 0 || e.duration > 3000 || e.samples < 0 || e.samples > 4 {
      return Some(BadRange);
    }
    if e.kind != "move" && e.kind != "wait" && e.duration != 0 {
      return Some(StrayField);
    }
    if e.kind != "move" && e.samples != 0 {
      return Some(StrayField);
    }
    if e.kind != "move" && (e.x != None || e.y != None) {
      return Some(StrayField);
    }
    if e.kind != "key_down" && e.kind != "key_up" && e.kind != "key_press" && e.key != "" {
      return Some(StrayField);
    }
    if e.kind != "button_down" && e.kind != "button_up" && e.button != "" {
      return Some(StrayField);
    }
    if e.kind == "key_down" || e.kind == "key_up" || e.kind == "key_press" {
      var named := ValidInteractionKey(e.key);
      return if named then None else Some(BadKey);
    }
    if e.kind == "button_down" || e.kind == "button_up" {
      return if e.button == "left" || e.button == "right" || e.button == "middle" then None else Some(BadButton);
    }
    if e.kind == "move" {
      if e.x == None || e.y == None || e.x.value < 0 || e.y.value < 0 || e.x.value > 16000 || e.y.value > 16000 {
        return Some(BadMove);
      }
      return if e.samples > 0 && e.duration < 100 then Some(BadMove) else None;
    }
    if e.kind == "wait" {
      return if e.duration < 1 then Some(BadWait) else None;
    }
    return if e.kind == "capture" then None else Some(Unsupported);
  }

  method ValidateInteraction(i: Option<Interaction>) returns (problem: Option<Problem>)
    ensures problem == None <==> i.Some? && Acceptable(i.value)
    ensures problem == Some(TooLong) ==> i.Some? && Sum(i.value.events, Duration) > MAX_DURATION
    ensures problem == Some(TooManyImages) ==>
              i.Some? && Sum(i.value.events, Duration) <= MAX_DURATION && Sum(i.value.events, Images) >= MAX_IMAGES
  {
    hide EventOk, Sum, OnlyKey;
    if i.None? {
      return Some(Missing);
    }
    var Interaction(operation, lease, events) := i.value;
    if operation != "begin" && operation != "continue" && operation != "observe" && operation != "release" &&
       operation != "cancel" {
      return Some(BadOperation);
    }
    if lease != 0 && (lease < 1000 || lease > 60_000) {
      return Some(BadLease);
    }
    if |events| > MAX_EVENTS {
      return Some(TooManyEvents);
    }
    if operation != "begin" && operation != "continue" && |events| > 0 {
      return Some(EventsNotAccepted);
    }
    SumOfNone(Duration);
    SumOfNone(Images);
    var total, frames := 0, 1;
    for k := 0 to |events|
      invariant forall j :: 0 <= j < k ==> EventOk(events[j])
      invariant total == Sum(events[..k], Duration) && frames == Sum(events[..k], Images) + 1
    {
      var e := events[k];
      problem := CheckEvent(e);
      if problem.Some? {
        return problem;
      }
      SumOfNext(events, Duration, k);
      SumOfNext(events, Images, k);
      if e.kind == "key_press" {
        total := total + PRESS;
      }
      if e.kind == "move" {
        frames := frames + e.samples;
      } else if e.kind == "capture" {
        frames := frames + 1;
      }
      total := total + e.duration;
    }
    assert events[..|events|] == events;
    if total > MAX_DURATION {
      return Some(TooLong);
    }
    if frames > MAX_IMAGES {
      return Some(TooManyImages);
    }
    return None;
  }

  /** What an acceptable interaction is, limit by limit. */
  lemma AcceptanceSpelledOut(i: Interaction)
    ensures Acceptable(i) <==>
              && i.operation in {"begin", "continue", "observe", "release", "cancel"}
              && (i.leaseMs == 0 || 1000 <= i.leaseMs <= 60_000)
              && (i.events == [] || i.operation == "begin" || i.operation == "continue")
              && |i.events| <= 16 && (forall e :: e in i.events ==> EventOk(e))
              && Sum(i.events, Duration) <= 10_000 && Sum(i.events, Images) <= 5
  {
    hide EventOk, Sum;
  }

  /** What an acceptable event is, kind by kind, and what it takes of the budgets. */
  lemma EventsSpelledOut(e: Event)
    ensures EventOk(e) ==>
              && e.kind in {"key_down", "key_up", "key_press", "button_down", "button_up", "move", "wait", "capture"}
              && 0 <= e.duration <= 3000 && 0 <= e.samples <= 4
    ensures e.kind == "move" ==>
              (EventOk(e) <==>
                 && e.key == "" && e.button == "" && e.x.Some? && e.y.Some?
                 && 0 <= e.x.value <= 16_000 && 0 <= e.y.value <= 16_000
                 && 0 <= e.duration <= 3000 && 0 <= e.samples <= 4 && (e.samples == 0 || e.duration >= 100))
    ensures e.kind == "wait" ==>
              (EventOk(e) <==>
                 && e.key == "" && e.button == "" && e.x == None == e.y && e.samples == 0 && 1 <= e.duration <= 3000)
    ensures e.kind == "capture" ==>
              (EventOk(e) <==>
                 && e.key == "" && e.button == "" && e.x == None == e.y && e.samples == 0 == e.duration)
    ensures e.kind == "button_down" || e.kind == "button_up" ==>
              (EventOk(e) <==>
                 && e.button in {"left", "right", "middle"} && e.key == ""
                 && e.x == None == e.y && e.samples == 0 == e.duration)
    ensures e.kind == "key_down" || e.kind == "key_up" || e.kind == "key_press" ==>
              (EventOk(e) <==>
                 IsInteractionKey(e.key) && e.button == "" && e.x == None == e.y && e.samples == 0 == e.duration)
    ensures Duration(e) == if e.kind == "key_press" then e.duration + 80 else e.duration
    ensures Images(e) == if e.kind == "move" then e.samples else if e.kind == "capture" then 1 else 0
  {
    hide IsInteractionKey;
  }

  // ------------------------------------------------------------------- budgets

  lemma SumOfNone(weight: Event -> int)
    ensures Sum([], weight) == 0
  {
  }

  lemma SumOfNext(events: seq<Event>, weight: Event -> int, k: nat)
    requires k < |events|
    ensures Sum(events[..k + 1], weight) == Sum(events[..k], weight) + weight(events[k])
  {
    assert events[..k + 1][..k] == events[..k];
  }

  lemma {:induction false} SumWithout(events: seq<Event>, weight: Event -> int, i: nat)
    requires i < |events|
    ensures Sum(events, weight) == Sum(events[..i] + events[i + 1..], weight) + weight(events[i])
  {
    var n := |events| - 1;
    var less := events[..i] + events[i + 1..];
    if i == n {
      assert less == events[..n];
    } else {
      var front := events[..n];
      SumWithout(front, weight, i);
      assert less[..n - 1] == front[..i] + front[i + 1..] && less[n - 1] == events[n];
    }
  }

  lemma WithoutOne(events: seq<Event>, i: nat)
    requires i < |events|
    ensures multiset(events[..i] + events[i + 1..]) == multiset(events) - multiset{events[i]}
  {
    assert events == events[..i] + [events[i]] + events[i + 1..];
  }

  lemma {:induction false} SumOfPermutation(events: seq<Event>, others: seq<Event>, weight: Event -> int)
    requires multiset(events) == multiset(others)
    ensures Sum(events, weight) == Sum(others, weight)
    decreases |events|
  {
    assert |events| == |multiset(events)| == |multiset(others)| == |others|;
    if events != [] {
      var n := |events| - 1;
      var i := MatchLast(events, others);
      SumOfPermutation(events[..n], others[..i] + others[i + 1..], weight);
      SumWithout(others, weight, i);
    }
  }

  /** Where a permutation holds the last event, and what is left without it. */
  lemma MatchLast(events: seq<Event>, others: seq<Event>) returns (i: nat)
    requires events != [] && multiset(events) == multiset(others)
    ensures i < |others| && others[i] == events[|events| - 1]
    ensures multiset(events[..|events| - 1]) == multiset(others[..i] + others[i + 1..])
  {
    var n := |events| - 1;
    assert events[n] in multiset(others);
    i :| 0 <= i < |others| && others[i] == events[n];
    WithoutOne(events, n);
    WithoutOne(others, i);
    assert events[..n] == events[..n] + events[n + 1..];
  }

  /** The order of the events is no part of the budget. */
  lemma OrderIsNoMatter(i: Interaction, others: seq<Event>)
    requires multiset(i.events) == multiset(others)
    ensures Acceptable(i) <==> Acceptable(i.(events := others))
  {
    hide EventOk, Sum;
    SumOfPermutation(i.events, others, Duration);
    SumOfPermutation(i.events, others, Images);
    assert |i.events| == |multiset(i.events)| == |multiset(others)| == |others|;
    forall e ensures e in i.events <==> e in others {
      assert e in multiset(i.events) <==> e in multiset(others);
    }
  }

  lemma EventsWeighNothingNegative(e: Event)
    requires EventOk(e)
    ensures Duration(e) >= 0 && Images(e) >= 0
  {
  }

  /** Dropping any event of an acceptable interaction leaves an acceptable one. */
  lemma FewerEventsAreAcceptable(i: Interaction, k: nat)
    requires Acceptable(i) && k < |i.events|
    ensures Acceptable(i.(events := i.events[..k] + i.events[k + 1..]))
  {
    hide EventOk, Sum;
    SumWithout(i.events, Duration, k);
    SumWithout(i.events, Images, k);
    EventsWeighNothingNegative(i.events[k]);
  }

  /** Every window of an accepted sequence fits: its time, and five images besides the final one. */
  lemma {:induction false} AcceptedPartsFit(events: seq<Event>, part: seq<Event>)
    requires EventsOk(events) && multiset(part) <= multiset(events)
    ensures 0 <= Sum(part, Duration) <= 10_000 && 0 <= Sum(part, Images) <= 5
    decreases |events|
  {
    hide EventOk, Duration, Images;
    if part == [] {
      SumIsNatural(events);
      assert Sum(part, Duration) == 0 == Sum(part, Images);
    } else if multiset(part) == multiset(events) {
      SumIsNatural(events);
      SumOfPermutation(part, events, Duration);
      SumOfPermutation(part, events, Images);
    } else {
      var e :| e in multiset(events) && multiset(part)[e] < multiset(events)[e];
      var k :| 0 <= k < |events| && events[k] == e;
      var less := events[..k] + events[k + 1..];
      WithoutOne(events, k);
      FewerEventsAreAcceptable(Interaction("begin", 0, events), k);
      AcceptedPartsFit(less, part);
    }
  }

  lemma {:induction false} SumIsNatural(events: seq<Event>)
    requires forall e :: e in events ==> EventOk(e)
    ensures Sum(events, Duration) >= 0 && Sum(events, Images) >= 0
  {
    if events != [] {
      SumIsNatural(events[..|events| - 1]);
      EventsWeighNothingNegative(events[|events| - 1]);
    }
  }
}
