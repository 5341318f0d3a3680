// The vocabulary of one cwmp:Inform Event array: event codes, the triggers
// that start a session, and the records a session delivers after its Inform.
module Events {

  /** Event codes of TR-069 Annex A; Method covers the "M ..." family. */
  datatype Code =
    | Bootstrap
    | Boot
    | Periodic
    | Scheduled
    | ValueChange
    | Kicked
    | ConnectionRequest
    | TransferComplete
    | Diagnostics
    | RequestDownload
    | AutonomousTransfer
    | DUStateChange
    | Method(name: string)

  /** One entry of the Event array; the command key is empty except for "M ..." events. */
  datatype Event = Event(code: Code, key: string)

  datatype Trigger =
    | OnStartup
    | OnPeriodic
    | OnConnectionRequest
    | OnValueChange
    | OnTransferComplete
    | OnRetry
    | OnDUStateChangeComplete

  datatype TransferRecord = TransferRecord(key: string, faultCode: int, faultString: string, start: int, complete: int)

  datatype OpResult = OpResult(uuid: string, unitRef: string, version: string, state: string, faultCode: int)

  datatype DURecord = DURecord(key: string, results: seq<OpResult>)

  /** A remote procedure call the device itself starts, after the InformResponse. */
  datatype Rpc = TransferRpc(transfer: TransferRecord) | DURpc(change: DURecord)

  /** An event that carries no command key. */
  function Unkeyed(code: Code): Event {
    Event(code, "")
  }

  /** The codes that a failed session must not put back on the queue: Table 7
      forbids retrying a connection request, BOOTSTRAP persists through its own
      latch, and TRANSFER COMPLETE through the record queue. */
  predicate Persists(code: Code) {
    !code.ConnectionRequest? && !code.Bootstrap? && !code.TransferComplete?
  }

  predicate AllPersist(events: seq<Event>) {
    forall e <- events :: Persists(e.code)
  }

  /** The new event a trigger announces; a retry announces none. */
  function Primary(trigger: Trigger): seq<Event> {
    match trigger
    case OnStartup => [Unkeyed(Boot)]
    case OnPeriodic => [Unkeyed(Periodic)]
    case OnConnectionRequest => [Unkeyed(ConnectionRequest)]
    case OnValueChange => [Unkeyed(ValueChange)]
    case OnTransferComplete => [Unkeyed(TransferComplete)]
    case OnDUStateChangeComplete => [Unkeyed(DUStateChange)]
    case OnRetry => []
  }

  ghost predicate Distinct<T(!new)>(s: seq<T>) {
    forall i, j | 0 <= i < j < |s| :: s[i] != s[j]
  }

  // ---------- Removing duplicates, first occurrence kept ----------

  function Dedupe(s: seq<Event>): seq<Event> {
    if s == [] then []
    else
      var r := Dedupe(s[..|s| - 1]);
      if s[|s| - 1] in s[..|s| - 1] then r else r + [s[|s| - 1]]
  }

  /** The same events, each once, led by the same one. */
  lemma {:induction false} DedupeFacts(s: seq<Event>)
    ensures forall e :: e in Dedupe(s) <==> e in s
    ensures |Dedupe(s)| <= |s|
    ensures Distinct(Dedupe(s))
    ensures s != [] ==> Dedupe(s) != [] && Dedupe(s)[0] == s[0]
  {
    if s != [] {
      DedupeFacts(s[..|s| - 1]);
      assert s == s[..|s| - 1] + [s[|s| - 1]];
    }
  }

  /** r lists the entries of s, each once, in the order in which they first occur. */
  ghost predicate ByFirstPlace(s: seq<Event>, r: seq<Event>) {
    && Distinct(r)
    && forall n | 0 <= n <= |s| :: Covers(r, s, n)
  }

  /** Some prefix of r holds just the entries of the first n of s. */
  ghost predicate Covers(r: seq<Event>, s: seq<Event>, n: nat)
    requires n <= |s|
  {
    exists p: seq<Event> :: p <= r && SameEntries(p, s[..n])
  }

  ghost predicate SameEntries(s: seq<Event>, t: seq<Event>) {
    forall e :: e in s <==> e in t
  }

  lemma {:induction false} DedupePrefix(s: seq<Event>, n: nat)
    requires n <= |s|
    ensures Dedupe(s[..n]) <= Dedupe(s)
  {
    if n < |s| {
      DedupePrefix(s[..|s| - 1], n);
      assert s[..|s| - 1][..n] == s[..n];
    } else {
      assert s[..n] == s;
    }
  }

  lemma DedupeByFirstPlace(s: seq<Event>)
    ensures ByFirstPlace(s, Dedupe(s))
  {
    DedupeFacts(s);
    var r := Dedupe(s);
    forall n | 0 <= n <= |s|
      ensures Covers(r, s, n)
    {
      DedupePrefix(s, n);
      DedupeFacts(s[..n]);
      assert SameEntries(Dedupe(s[..n]), s[..n]);
    }
  }

  lemma {:induction false} DedupeFixpoint(s: seq<Event>)
    requires Distinct(s)
    ensures Dedupe(s) == s
  {
    if s != [] {
      DedupeFixpoint(s[..|s| - 1]);
      assert s == s[..|s| - 1] + [s[|s| - 1]];
    }
  }

  // ---------- Filtering out what a failed session does not re-queue ----------

  function Persisting(s: seq<Event>): seq<Event> {
    if s == [] then []
    else
      var r := Persisting(s[..|s| - 1]);
      if Persists(s[|s| - 1].code) then r + [s[|s| - 1]] else r
  }

  lemma {:induction false} PersistingFacts(s: seq<Event>)
    ensures forall e :: e in Persisting(s) <==> e in s && Persists(e.code)
    ensures Distinct(s) ==> Distinct(Persisting(s))
    ensures AllPersist(Persisting(s))
  {
    if s != [] {
      PersistingFacts(s[..|s| - 1]);
      assert s == s[..|s| - 1] + [s[|s| - 1]];
    }
  }

  lemma {:induction false} PersistingSplits(s: seq<Event>, t: seq<Event>)
    ensures Persisting(s + t) == Persisting(s) + Persisting(t)
  {
    if t == [] {
      assert s + t == s;
    } else {
      PersistingSplits(s, t[..|t| - 1]);
      assert (s + t)[..|s + t| - 1] == s + t[..|t| - 1];
    }
  }

  lemma PersistingKeepsOrder(s: seq<Event>, i: nat, j: nat)
    requires i < j < |s| && Persists(s[i].code) && Persists(s[j].code)
    ensures var r := Persisting(s);
      exists k, l | 0 <= k < l < |r| :: r[k] == s[i] && r[l] == s[j]
  {
    hide Persisting;
    var first, second := Persisting(s[..j]), Persisting(s[j..]);
    PersistingSplits(s[..j], s[j..]);
    assert s[..j] + s[j..] == s;
    PersistingFacts(s[..j]);
    PersistingFacts(s[j..]);
    assert s[..j][i] == s[i] && s[j..][0] == s[j];
    assert s[i] in first && s[j] in second;
    var k :| 0 <= k < |first| && first[k] == s[i];
    var l :| 0 <= l < |second| && second[l] == s[j];
    assert (first + second)[k] == s[i] && (first + second)[|first| + l] == s[j];
  }

  lemma {:induction false} PersistingAll(s: seq<Event>)
    requires AllPersist(s)
    ensures Persisting(s) == s
  {
    if s != [] {
      PersistingAll(s[..|s| - 1]);
      assert s == s[..|s| - 1] + [s[|s| - 1]];
    }
  }
}
