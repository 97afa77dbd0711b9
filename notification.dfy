/** The change notifier: after a save it compares the saved card with the snapshot the sheet
    returned, renders the differences as a numbered list, and sends one MarkdownV2 message to
    every recipient of the distribution list, collecting one result per recipient. */
module Notification {
  import opened Wrappers
  import opened Strings
  import opened Dict

  /** A card or a sheet snapshot: field name to a string, or None for a blank new card field. */
  type Snapshot = Fields

  /** The characters MarkdownV2 reserves; the backslash is one of them. */
  const SPECIALS: string := "\\_*[]()~`>#+-=|{}.!"

  predicate IsSpecial(c: char) {
    c in SPECIALS
  }

  function EscapeChar(c: char): string {
    if IsSpecial(c) then ['\\', c] else [c]
  }

  /** escape_markdown_v2: a backslash before every reserved character. */
  function Escape(s: string): string {
    if s == [] then [] else EscapeChar(s[0]) + Escape(s[1..])
  }

  function CountSpecials(s: string): nat {
    if s == [] then 0 else (if IsSpecial(s[0]) then 1 else 0) + CountSpecials(s[1..])
  }

  /** Escaping adds exactly one character per reserved character. */
  lemma {:induction false} EscapeLength(s: string)
    ensures |Escape(s)| == |s| + CountSpecials(s)
  {
    if s != [] {
      EscapeLength(s[1..]);
    }
  }

  /** Text without reserved characters is sent as it is. */
  lemma {:induction false} EscapePlain(s: string)
    requires forall i :: 0 <= i < |s| ==> !IsSpecial(s[i])
    ensures Escape(s) == s
  {
    if s != [] {
      EscapePlain(s[1..]);
      assert s == [s[0]] + s[1..];
    }
  }

  lemma {:induction false} EscapeAppend(a: string, b: string)
    ensures Escape(a + b) == Escape(a) + Escape(b)
  {
    if a == [] {
      assert a + b == b;
    } else {
      assert (a + b)[1..] == a[1..] + b;
      EscapeAppend(a[1..], b);
    }
  }

  /** What a MarkdownV2 reader does with the escapes: a backslash makes the next character literal. */
  function Unescape(t: string): string
    decreases |t|
  {
    if t == [] then []
    else if t[0] == '\\' && |t| >= 2 then [t[1]] + Unescape(t[2..])
    else [t[0]] + Unescape(t[1..])
  }

  /** The escaped text reads back as the original text. */
  lemma {:induction false} UnescapeEscape(s: string)
    ensures Unescape(Escape(s)) == s
  {
    if s != [] {
      var e := Escape(s);
      assert e == EscapeChar(s[0]) + Escape(s[1..]);
      if IsSpecial(s[0]) {
        assert e[0] == '\\' && e[1] == s[0] && e[2..] == Escape(s[1..]);
      } else {
        assert s[0] != '\\';
        assert e[0] == s[0] && e[1..] == Escape(s[1..]);
      }
      UnescapeEscape(s[1..]);
      assert s == [s[0]] + s[1..];
    }
  }

  /** One differing field: its value in the sheet snapshot and in the saved card. */
  datatype Change = Change(key: string, before: Option<string>, after: Option<string>)

  /** The change one card entry contributes: none unless the snapshot has the key with another value. */
  function ChangeFor(entry: (string, Option<string>), previous: Snapshot): seq<Change> {
    if Has(previous, entry.0) && Get(previous, entry.0).value != entry.1
    then [Change(entry.0, Get(previous, entry.0).value, entry.1)]
    else []
  }

  /** payload_changes: the changes of the card entries, in card order. */
  function Changes(payload: Snapshot, previous: Snapshot): seq<Change>
    decreases |payload|
  {
    if payload == [] then []
    else Changes(payload[..|payload| - 1], previous) + ChangeFor(payload[|payload| - 1], previous)
  }

  /** A change names a key the card has, with the card's value as the new value and the
      snapshot's value, which differs, as the old one. */
  predicate ChangeSound(payload: Snapshot, previous: Snapshot, c: Change) {
    Has(payload, c.key) && Get(payload, c.key) == Some(c.after) &&
    Get(previous, c.key) == Some(c.before) && c.before != c.after
  }

  /** The last entry's key is not a key of the entries before it. */
  lemma LastKeyFresh(front: Snapshot, e: (string, Option<string>))
    requires DistinctKeys(front + [e])
    ensures !Has(front, e.0)
    ensures DistinctKeys(front)
  {
    GetSnoc(front, e, e.0);
    var d := front + [e];
    forall i, j | 0 <= i < j < |front|
      ensures front[i].0 != front[j].0
    {
      assert front[i] == d[i] && front[j] == d[j];
    }
  }

  /** Every change reports a real difference between the card and the snapshot. */
  lemma {:induction false} ChangesSound(payload: Snapshot, previous: Snapshot)
    requires DistinctKeys(payload)
    ensures forall c :: c in Changes(payload, previous) ==> ChangeSound(payload, previous, c)
  {
    if payload != [] {
      var n := |payload| - 1;
      var front, e := payload[..n], payload[n];
      assert payload == front + [e];
      LastKeyFresh(front, e);
      ChangesSound(front, previous);
      forall c | c in Changes(payload, previous)
        ensures ChangeSound(payload, previous, c)
      {
        GetSnoc(front, e, c.key);
        if c in Changes(front, previous) {
          assert c.key != e.0;
        }
      }
    }
  }

  /** Every key both sides hold with different values has a change. */
  lemma {:induction false} ChangesComplete(payload: Snapshot, previous: Snapshot, k: string)
    requires DistinctKeys(payload)
    requires Has(payload, k) && Has(previous, k) && Get(payload, k) != Get(previous, k)
    ensures exists c :: c in Changes(payload, previous) && c.key == k
  {
    var n := |payload| - 1;
    var front, e := payload[..n], payload[n];
    assert payload == front + [e];
    LastKeyFresh(front, e);
    GetSnoc(front, e, k);
    if k == e.0 {
      var c := Change(k, Get(previous, k).value, e.1);
      assert c in Changes(payload, previous);
    } else {
      assert Keys(payload)[IndexOf(payload, k)] == k;
      assert Has(front, k);
      ChangesComplete(front, previous, k);
      var c :| c in Changes(front, previous) && c.key == k;
      assert c in Changes(payload, previous);
    }
  }

  /** The changes appear in the order of their keys in the card. */
  predicate InCardOrder(payload: Snapshot, cs: seq<Change>) {
    forall i, j :: 0 <= i < j < |cs| ==> KeyBefore(payload, cs[i].key, cs[j].key)
  }

  /** Both keys are in the card, a strictly before b. */
  predicate KeyBefore(payload: Snapshot, a: string, b: string) {
    Has(payload, a) && Has(payload, b) && IndexOf(payload, a) < IndexOf(payload, b)
  }

  /** The changes follow the order of the card's keys, so no key is reported twice. */
  lemma {:induction false} ChangesOrdered(payload: Snapshot, previous: Snapshot)
    requires DistinctKeys(payload)
    ensures InCardOrder(payload, Changes(payload, previous))
  {
    if payload != [] {
      var n := |payload| - 1;
      var front, e := payload[..n], payload[n];
      assert payload == front + [e];
      LastKeyFresh(front, e);
      ChangesOrdered(front, previous);
      ChangesSound(front, previous);
      var cs0, cs := Changes(front, previous), Changes(payload, previous);
      assert cs == cs0 + ChangeFor(e, previous);
      forall i, j | 0 <= i < j < |cs|
        ensures KeyBefore(payload, cs[i].key, cs[j].key)
      {
        var ki, kj := cs[i].key, cs[j].key;
        assert cs[i] == cs0[i] && cs0[i] in cs0;
        assert ChangeSound(front, previous, cs0[i]);
        GetSnoc(front, e, ki);
        assert IndexOf(payload, ki) == IndexOf(front, ki) < |front|;
        GetSnoc(front, e, kj);
        if j < |cs0| {
          assert cs[j] == cs0[j] && cs0[j] in cs0;
          assert ChangeSound(front, previous, cs0[j]);
          assert KeyBefore(front, ki, kj);
        } else {
          assert kj == e.0;
          assert IndexOf(payload, kj) == |front|;
        }
      }
    }
  }

  /** The diff of one more card entry extends the diff of the entries before it. */
  lemma ChangesStep(payload: Snapshot, previous: Snapshot, i: nat)
    requires i < |payload|
    ensures Changes(payload[..i + 1], previous) == Changes(payload[..i], previous) + ChangeFor(payload[i], previous)
  {
    assert payload[..i + 1][..i] == payload[..i];
  }

  /** "{n}. {key}: {old} -> {new}". */
  function Line(n: nat, c: Change): (line: string)
    ensures |line| > 0
  {
    NatToString(n) + ". " + c.key + ": " + Str(c.before) + " -> " + Str(c.after)
  }

  /** The lines numbered consecutively from 1. */
  function Lines(cs: seq<Change>): (ls: seq<string>)
    ensures |ls| == |cs|
    ensures forall i :: 0 <= i < |cs| ==> ls[i] == Line(i + 1, cs[i])
  {
    seq(|cs|, i requires 0 <= i < |cs| => Line(i + 1, cs[i]))
  }

  /** payload_changes_str: the numbered lines joined by newlines. */
  function Render(cs: seq<Change>): string {
    Join("\n", Lines(cs))
  }

  lemma {:induction false} JoinNonEmpty(sep: string, parts: seq<string>)
    requires |parts| > 0 && |parts[|parts| - 1]| > 0
    ensures |Join(sep, parts)| > 0
  {
  }

  /** The change list is empty exactly when nothing changed. */
  lemma RenderEmpty(cs: seq<Change>)
    ensures Render(cs) == "" <==> cs == []
  {
    if cs != [] {
      JoinNonEmpty("\n", Lines(cs));
    }
  }

  /** The first two of several changes in card order. */
  lemma FirstTwoInOrder(payload: Snapshot, cs: seq<Change>)
    requires InCardOrder(payload, cs) && |cs| > 1
    ensures cs[0] in cs && cs[1] in cs && KeyBefore(payload, cs[0].key, cs[1].key)
  {
  }

  /** Changes in card order name each key at most once. */
  lemma OneChangePerKey(payload: Snapshot, cs: seq<Change>, k: string)
    requires InCardOrder(payload, cs)
    requires forall c :: c in cs ==> c.key == k
    ensures |cs| <= 1
  {
    if |cs| > 1 {
      FirstTwoInOrder(payload, cs);
      assert false;
    }
  }

  /** A card that differs from the snapshot in one shared field k only (keys just one side has
      are ignored) produces exactly one change, rendered as the single line numbered 1. */
  lemma OneChangeRendered(payload: Snapshot, previous: Snapshot, k: string)
    requires DistinctKeys(payload)
    requires Has(payload, k) && Has(previous, k) && Get(payload, k) != Get(previous, k)
    requires forall j :: j != k && Has(payload, j) && Has(previous, j) ==> Get(payload, j) == Get(previous, j)
    ensures Changes(payload, previous) == [Change(k, Get(previous, k).value, Get(payload, k).value)]
    ensures Render(Changes(payload, previous)) ==
      "1. " + k + ": " + Str(Get(previous, k).value) + " -> " + Str(Get(payload, k).value)
  {
    var cs := Changes(payload, previous);
    ChangesSound(payload, previous);
    ChangesComplete(payload, previous, k);
    ChangesOrdered(payload, previous);
    forall c | c in cs
      ensures c.key == k
    {
      assert ChangeSound(payload, previous, c);
    }
    var c :| c in cs && c.key == k;
    assert ChangeSound(payload, previous, c);
    OneChangePerKey(payload, cs, k);
    assert cs == [c];
    RenderSingle(c);
  }

  /** A single change renders as the one line numbered 1. */
  lemma RenderSingle(c: Change)
    ensures Render([c]) == "1. " + c.key + ": " + Str(c.before) + " -> " + Str(c.after)
  {
    assert Lines([c]) == [Line(1, c)];
    assert NatToString(1) == "1";
  }

  /** The user who saved: Telegram's first and last name, either possibly missing. */
  datatype Manager = Manager(firstName: Option<string>, lastName: Option<string>)

  /** `str(x) if x else ""`. */
  function NameOrEmpty(v: Option<string>): string {
    if v.Some? then v.value else ""
  }

  /** The exception send_notification raises. */
  datatype Failure = TypeError | KeyError(key: string)

  /** old_payload["name"], escaped afterwards: the snapshot must be a dict with a string name. */
  function SnapshotName(previous: Option<Snapshot>): Result<string, Failure> {
    match previous
    case None => Err(TypeError)
    case Some(p) =>
      if !Has(p, "name") then Err(KeyError("name"))
      else if Get(p, "name").value.None? then Err(TypeError)
      else Ok(Get(p, "name").value.value)
  }

  /** The text sent to every recipient. */
  function MessageText(payload: Snapshot, name: string, manager: Manager, changes: string): string {
    if |payload| > 0 then
      "*From:* " + Escape(NameOrEmpty(manager.firstName)) + " " + Escape(NameOrEmpty(manager.lastName)) +
      "\n*Name:* " + Escape(name) + "\n*Changes:*\n" + Escape(changes)
    else "No new updates."
  }

  /** The rendered changes; a snapshot that is not a dict contributes none. */
  function ChangesText(payload: Snapshot, previous: Option<Snapshot>): string {
    if previous.Some? then Render(Changes(payload, previous.value)) else ""
  }

  /** The exception send_notification raises, if any: the change loop tests `key in old_payload`
      (a TypeError when the write failed and returned False), and every recipient needs the
      snapshot's name. */
  function NotifyFailure(payload: Snapshot, previous: Option<Snapshot>, recipients: seq<int>): Option<Failure> {
    if |payload| > 0 && previous.None? then Some(TypeError)
    else if |recipients| > 0 && SnapshotName(previous).Err? then Some(SnapshotName(previous).error)
    else None
  }

  /** The answer of the Bot API to one sendMessage request. */
  datatype Response = Response(status: int, json: string, text: string)

  /** One entry of the returned list: the response data, or {"status", "error"}. */
  datatype Outcome = Delivered(data: string) | Refused(status: int, error: string)

  function OutcomeOf(r: Response): Outcome {
    if r.status == 200 then Delivered(r.json) else Refused(r.status, r.text)
  }

  /** The text every recipient gets. */
  function MessageFor(payload: Snapshot, previous: Option<Snapshot>, manager: Manager): string {
    var name := if SnapshotName(previous).Ok? then SnapshotName(previous).value else "";
    MessageText(payload, name, manager, ChangesText(payload, previous))
  }

  /** The outcomes of sending one text to each recipient, in list order. */
  function Deliveries(recipients: seq<int>, text: string, deliver: (int, string) -> Response): (rs: seq<Outcome>)
    ensures |rs| == |recipients|
    ensures forall i :: 0 <= i < |recipients| ==> rs[i] == OutcomeOf(deliver(recipients[i], text))
  {
    seq(|recipients|, i requires 0 <= i < |recipients| => OutcomeOf(deliver(recipients[i], text)))
  }

  /** What send_notification returns or raises. */
  function Notify(payload: Snapshot, previous: Option<Snapshot>, manager: Manager,
                  recipients: seq<int>, deliver: (int, string) -> Response): Result<seq<Outcome>, Failure> {
    match NotifyFailure(payload, previous, recipients)
    case Some(f) => Err(f)
    case None => Ok(Deliveries(recipients, MessageFor(payload, previous, manager), deliver))
  }

  /** One result per recipient, in list order, all for the same text; an unreadable snapshot
      raises before anything is sent. */
  lemma NotifyPerRecipient(payload: Snapshot, previous: Option<Snapshot>, manager: Manager,
                           recipients: seq<int>, deliver: (int, string) -> Response)
    ensures var r := Notify(payload, previous, manager, recipients, deliver);
      && (r.Err? <==> (|payload| > 0 && previous.None?) || (|recipients| > 0 && SnapshotName(previous).Err?))
      && (r.Ok? ==> |r.value| == |recipients|)
      && (r.Ok? ==> forall i :: 0 <= i < |recipients| ==>
            r.value[i] == OutcomeOf(deliver(recipients[i],
              MessageText(payload, SnapshotName(previous).value, manager, ChangesText(payload, previous)))))
  {
    if NotifyFailure(payload, previous, recipients).None? && |recipients| > 0 {
      assert SnapshotName(previous).Ok?;
      assert MessageFor(payload, previous, manager) ==
        MessageText(payload, SnapshotName(previous).value, manager, ChangesText(payload, previous));
    }
  }

  /** The diff loop of send_notification: payload_changes_str, re-rendered after every change.
      The test `key in old_payload` raises TypeError when the snapshot is not a dict. */
  method CollectChanges(payload: Snapshot, previous: Option<Snapshot>) returns (r: Result<string, Failure>)
    ensures r.Err? <==> |payload| > 0 && previous.None?
    ensures r.Err? ==> r.error == TypeError
    ensures r.Ok? ==> r.value == ChangesText(payload, previous)
  {
    var changes: seq<Change> := [];
    var changesText := "";
    var i := 0;
    while i < |payload|
      invariant 0 <= i <= |payload|
      invariant i > 0 ==> previous.Some?
      invariant previous.Some? ==> changes == Changes(payload[..i], previous.value)
      invariant previous.None? ==> changes == []
      invariant changesText == Render(changes)
    {
      var key, value := payload[i].0, payload[i].1;
      if previous.None? {
        return Err(TypeError);
      }
      ChangesStep(payload, previous.value, i);
      if Has(previous.value, key) {
        var before := Get(previous.value, key).value;
        if value != before {
          changes := changes + [Change(key, before, value)];
          changesText := Render(changes);
        }
      }
      i := i + 1;
    }
    assert payload[..i] == payload;
    return Ok(changesText);
  }

  /** The recipients loop of send_notification: one request per recipient, in list order,
      each needing the snapshot's name; the outcome of each is appended to the results. */
  method SendToRecipients(payload: Snapshot, previous: Option<Snapshot>, manager: Manager,
                          changesText: string, recipients: seq<int>, deliver: (int, string) -> Response)
    returns (r: Result<seq<Outcome>, Failure>)
    ensures r.Err? <==> |recipients| > 0 && SnapshotName(previous).Err?
    ensures r.Err? ==> r.error == SnapshotName(previous).error
    ensures r.Ok? ==> |r.value| == |recipients|
    ensures r.Ok? && |recipients| > 0 ==>
      SnapshotName(previous).Ok? &&
      forall k :: 0 <= k < |recipients| ==>
        r.value[k] == OutcomeOf(deliver(recipients[k],
          MessageText(payload, SnapshotName(previous).value, manager, changesText)))
  {
    var results: seq<Outcome> := [];
    var j := 0;
    while j < |recipients|
      invariant 0 <= j <= |recipients|
      invariant |results| == j
      invariant j > 0 ==> SnapshotName(previous).Ok?
      invariant j > 0 ==> forall k :: 0 <= k < j ==>
        results[k] == OutcomeOf(deliver(recipients[k],
          MessageText(payload, SnapshotName(previous).value, manager, changesText)))
    {
      var name := SnapshotName(previous);
      if name.Err? {
        return Err(name.error);
      }
      var text := MessageText(payload, name.value, manager, changesText);
      var response := deliver(recipients[j], text);
      if response.status == 200 {
        results := results + [Delivered(response.json)];
      } else {
        results := results + [Refused(response.status, response.text)];
      }
      j := j + 1;
    }
    return Ok(results);
  }

  /** send_notification: the diff loop, then the recipients loop. `deliver` is the Bot API:
      the response a recipient's request gets. */
  method SendNotification(payload: Snapshot, previous: Option<Snapshot>, manager: Manager,
                          recipients: seq<int>, deliver: (int, string) -> Response)
    returns (r: Result<seq<Outcome>, Failure>)
    ensures r == Notify(payload, previous, manager, recipients, deliver)
  {
    var changesText := CollectChanges(payload, previous);
    if changesText.Err? {
      return Err(changesText.error);
    }
    r := SendToRecipients(payload, previous, manager, changesText.value, recipients, deliver);
    if r.Ok? {
      if |recipients| > 0 {
        assert MessageFor(payload, previous, manager) ==
          MessageText(payload, SnapshotName(previous).value, manager, changesText.value);
      }
      assert r.value == Deliveries(recipients, MessageFor(payload, previous, manager), deliver);
    }
  }
}
