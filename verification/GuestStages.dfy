/** The four stages of a guest recipe: readiness, check, apply, verify. Each script runs at most once per job, behind a
    durable intent, and the journal is checked again before every use. */
module GuestStages {
  import opened Text

  datatype Stage = Readiness | Check | Apply | Verify

  function StageAt(i: nat): Stage
    requires i < 4
  {
    if i == 0 then Readiness else if i == 1 then Check else if i == 2 then Apply else Verify
  }

  function Number(s: Stage): (i: nat)
    ensures i < 4 && StageAt(i) == s
  {
    match s case Readiness => 0 case Check => 1 case Apply => 2 case Verify => 3
  }

  datatype Outcome = Ready | AlreadyConfigured | NeedsApply | Applied | SkipApply | Verified | Unsuccessful

  type Digest = nat

  /** SHA-256, uninterpreted. */
  type Hash = string -> Digest

  datatype Intent = Intent(binding: nat, stage: Stage, run: bool, created: nat)

  datatype Receipt = Receipt(
    completed: bool, exit: Option<int>, stdoutBytes: nat, stderrBytes: nat, stdout: Digest, stderr: Digest,
    uid: Option<nat>, outcome: Outcome, finished: nat)

  datatype Record = Record(intent: Intent, receipt: Option<Receipt>)

  /** What the transport returns once a script has completed. */
  datatype Result = Result(exit: int, stdout: string, stderr: string)

  const LIMIT := 1048576
  const MAX_UID: nat := 0xFFFF_FFFF

  predicate InRange(r: Result) { 0 <= r.exit <= 254 && |r.stdout| <= LIMIT && |r.stderr| <= LIMIT }

  predicate Completed(s: Stage, r: Option<Receipt>) {
    r.Some? && match s
      case Readiness => r.value.outcome.Ready?
      case Check => r.value.outcome.AlreadyConfigured? || r.value.outcome.NeedsApply?
      case Apply => r.value.outcome.Applied? || r.value.outcome.SkipApply?
      case Verify => r.value.outcome.Verified?
  }

  function UidText(uid: nat): string { NatText(uid) + "\n" }

  /** The outcome a completed script's exit code stands for. */
  function ByExit(s: Stage, exit: int, uid: Option<nat>): Outcome {
    match s
    case Readiness => if uid.Some? then Ready else Unsuccessful
    case Check => if exit == 0 then AlreadyConfigured else if exit == 3 then NeedsApply else Unsuccessful
    case Apply => if exit == 0 then Applied else Unsuccessful
    case Verify => if exit == 0 then Verified else Unsuccessful
  }

  /** validReceipt. */
  predicate ValidReceipt(hash: Hash, s: Stage, run: bool, receipt: Option<Receipt>) {
    receipt.Some? ==>
      var r := receipt.value;
      && r.stdoutBytes <= LIMIT && r.stderrBytes <= LIMIT
      && if !run then
          s.Apply? && r.outcome.SkipApply? && !r.completed && r.exit.None? && r.uid.None?
          && r.stdoutBytes == 0 == r.stderrBytes && r.stdout == hash("") == r.stderr
        else
          && r.completed && r.exit.Some? && 0 <= r.exit.value <= 254
          && (r.stdoutBytes == 0 ==> r.stdout == hash("")) && (r.stderrBytes == 0 ==> r.stderr == hash(""))
          && (r.uid.Some? ==>
            && s.Readiness? && r.exit.value == 0 && 0 < r.uid.value <= MAX_UID
            && r.stdoutBytes == |UidText(r.uid.value)| && r.stdout == hash(UidText(r.uid.value)) && r.stderrBytes == 0)
          && r.outcome == ByExit(s, r.exit.value, r.uid)
  }

  /** The user a readiness script reports: one canonical decimal line, neither zero nor beyond 32 bits. */
  function ReportedUid(r: Result): Option<nat> {
    var text := r.stdout;
    if r.exit == 0 && r.stderr == "" && |text| > 1 && text[|text| - 1] == '\n' then
      var uid := Digits(text[..|text| - 1]);
      if uid.Some? && 0 < uid.value <= MAX_UID && UidText(uid.value) == text then uid else None
    else None
  }

  /** received. */
  function Received(hash: Hash, s: Stage, r: Result, now: nat): Receipt {
    var uid := if s.Readiness? then ReportedUid(r) else None;
    Receipt(true, Some(r.exit), |r.stdout|, |r.stderr|, hash(r.stdout), hash(r.stderr), uid, ByExit(s, r.exit, uid),
      now)
  }

  /** A user is reported exactly when the output is that user's number and a line end. */
  lemma ReportedIff(r: Result, uid: nat)
    ensures ReportedUid(r) == Some(uid) <==>
      r.exit == 0 && r.stderr == "" && 0 < uid <= MAX_UID && r.stdout == UidText(uid)
  {
    var digits := NatText(uid);
    ParseNatText(uid);
    assert UidText(uid)[..|UidText(uid)| - 1] == digits;
    DigitsOfNatText(uid);
  }

  /** Every receipt built from an in-range result is a valid one. */
  lemma ReceivedIsValid(hash: Hash, s: Stage, r: Result, now: nat)
    requires InRange(r)
    ensures ValidReceipt(hash, s, true, Some(Received(hash, s, r, now)))
  {
    hide Digits, NatText;
    var uid := ReportedUid(r);
    if uid.Some? { ReportedIff(r, uid.value); }
    assert |r.stdout| == 0 ==> r.stdout == "";
    assert |r.stderr| == 0 ==> r.stderr == "";
  }

  /** Exactly what a stage's receipt completes it on. */
  lemma CompletedIff(hash: Hash, s: Stage, r: Result, now: nat)
    ensures Completed(s, Some(Received(hash, s, r, now))) <==>
      match s
      case Readiness =>
        r.exit == 0 && r.stderr == "" && exists uid: nat :: 0 < uid <= MAX_UID && r.stdout == UidText(uid)
      case Check => r.exit == 0 || r.exit == 3
      case Apply => r.exit == 0
      case Verify => r.exit == 0
  {
    hide Digits, NatText;
    if s.Readiness? {
      forall uid: nat { ReportedIff(r, uid); }
      var uid := ReportedUid(r);
      assert uid.Some? ==> r.stdout == UidText(uid.value) && 0 < uid.value <= MAX_UID;
    }
  }

  /** The check's exit decides: 0 for a guest configured already, 3 for one that needs apply, any other for neither. */
  lemma CheckDecides(hash: Hash, r: Result, now: nat)
    ensures Received(hash, Check, r, now).exit == Some(r.exit)
    ensures Received(hash, Check, r, now).outcome.AlreadyConfigured? <==> r.exit == 0
    ensures Received(hash, Check, r, now).outcome.NeedsApply? <==> r.exit == 3
    ensures Received(hash, Check, r, now).outcome.Unsuccessful? <==> r.exit !in {0, 3}
  {
  }

  // The journal

  type Journal = map<Stage, Record>

  /** Apply runs unless the check found the guest configured already. */
  function Runs(j: Journal, s: Stage): bool {
    !(s.Apply? && Check in j && j[Check].receipt.Some? && j[Check].receipt.value.outcome.AlreadyConfigured?)
  }

  predicate RecordOk(hash: Hash, binding: nat, accepted: nat, j: Journal, s: Stage)
    requires s in j
  {
    var r := j[s];
    && r.intent == Intent(binding, s, Runs(j, s), r.intent.created) && accepted <= r.intent.created
    && ValidReceipt(hash, s, Runs(j, s), r.receipt)
      && (r.receipt.Some? ==> r.intent.created <= r.receipt.value.finished)
  }

  predicate CompletedBefore(j: Journal, i: nat)
    requires i <= 4
  {
    forall k :: 0 <= k < i ==> StageAt(k) in j && Completed(StageAt(k), j[StageAt(k)].receipt)
  }

  /** Every record is in order, and stands behind completed ones. */
  predicate JournalOk(hash: Hash, binding: nat, accepted: nat, j: Journal) {
    forall i ::
      0 <= i < 4 && StageAt(i) in j ==> CompletedBefore(j, i) && RecordOk(hash, binding, accepted, j, StageAt(i))
  }

  datatype Row = Row(stage: Stage, record: Option<Record>, complete: bool, effectUnknown: bool)

  function RowOf(j: Journal, s: Stage): Row {
    if s !in j then Row(s, None, false, false)
    else Row(s, Some(j[s]), Completed(s, j[s].receipt), Runs(j, s) && j[s].receipt.None?)
  }

  function Rows(j: Journal): seq<Row> { [RowOf(j, Readiness), RowOf(j, Check), RowOf(j, Apply), RowOf(j, Verify)] }

  /** stages: the rows of an acceptable journal; anything else is refused. */
  method ReadStages(hash: Hash, binding: nat, accepted: nat, j: Journal) returns (rows: Option<seq<Row>>)
    ensures rows.Some? <==> JournalOk(hash, binding, accepted, j)
    ensures rows.Some? ==> rows.value == Rows(j)
  {
    hide ValidReceipt;
    var results: seq<Row> := [];
    var priorComplete := true;
    for i := 0 to 4
      invariant results == Rows(j)[..i]
      invariant priorComplete <==> CompletedBefore(j, i)
      invariant forall k ::
        0 <= k < i && StageAt(k) in j ==> CompletedBefore(j, k) && RecordOk(hash, binding, accepted, j, StageAt(k))
    {
      var s := StageAt(i);
      assert CompletedBefore(j, i + 1) <==> CompletedBefore(j, i) && s in j && Completed(s, j[s].receipt);
      assert Rows(j)[i] == RowOf(j, s);
      if s !in j {
        priorComplete := false;
        results := results + [Row(s, None, false, false)];
        continue;
      }
      if !priorComplete { return None; }
      var run := true;
      if s.Apply? {
        assert StageAt(1) in j && Completed(StageAt(1), j[StageAt(1)].receipt);
        run := !j[Check].receipt.value.outcome.AlreadyConfigured?;
      }
      var record := j[s];
      if record.intent != Intent(binding, s, run, record.intent.created) || record.intent.created < accepted {
        return None;
      }
      if !ValidReceipt(hash, s, run, record.receipt) { return None; }
      if record.receipt.Some? && record.receipt.value.finished < record.intent.created { return None; }
      priorComplete := Completed(s, record.receipt);
      results := results + [Row(s, Some(record), priorComplete, run && record.receipt.None?)];
    }
    return Some(results);
  }

  /** Everything that holds of one job's journal and of the scripts run so far. */
  ghost predicate Sound(hash: Hash, binding: nat, accepted: nat, j: Journal, now: nat, log: seq<Stage>) {
    && JournalOk(hash, binding, accepted, j) && accepted <= now
    && (forall s ::
      s in j ==> j[s].intent.created <= now && (j[s].receipt.Some? ==> j[s].receipt.value.finished <= now))
    && (forall s :: s in log ==> s in j && j[s].intent.run)
    && (forall a, b :: 0 <= a < |log| && 0 <= b < |log| && log[a] == log[b] ==> a == b)
  }

  /** Each script ran at most once; apply only on a check that asked for it; verify only after applied or skipped. */
  lemma WhatRanMayHave(hash: Hash, binding: nat, accepted: nat, j: Journal, now: nat, log: seq<Stage>)
    requires Sound(hash, binding, accepted, j, now, log)
    ensures forall a, b :: 0 <= a < |log| && 0 <= b < |log| && log[a] == log[b] ==> a == b
    ensures Check in log ==> Readiness in j && j[Readiness].receipt.Some? && j[Readiness].receipt.value.outcome.Ready?
    ensures Apply in log ==> Check in j && j[Check].receipt.Some? && j[Check].receipt.value.outcome.NeedsApply?
    ensures Apply in log ==> j[Check].receipt.value.exit == Some(3)
    ensures Apply in j && Apply !in log && j[Apply].receipt.Some? && j[Apply].receipt.value.outcome.SkipApply? ==>
      Check in j && j[Check].receipt.Some? && j[Check].receipt.value.exit == Some(0)
    ensures Verify in log ==> Apply in j && j[Apply].receipt.Some?
    ensures Verify in log ==> j[Apply].receipt.value.outcome.Applied? || j[Apply].receipt.value.outcome.SkipApply?
  {
    CheckExits(hash, binding, accepted, j);
    hide ValidReceipt;
    assert StageAt(0) == Readiness && StageAt(1) == Check && StageAt(2) == Apply && StageAt(3) == Verify;
    assert Check in log ==> CompletedBefore(j, 1);
    assert Apply in log ==> CompletedBefore(j, 2) && Runs(j, Apply);
    assert Verify in log ==> CompletedBefore(j, 3);
  }

  /** What the check's receipt says of its exit, and what it has apply do. */
  lemma CheckExits(hash: Hash, binding: nat, accepted: nat, j: Journal)
    requires JournalOk(hash, binding, accepted, j)
    ensures Check in j && Completed(Check, j[Check].receipt) ==>
      && j[Check].receipt.value.exit in {Some(0), Some(3)}
      && (Runs(j, Apply) <==> j[Check].receipt.value.exit == Some(3))
    ensures Apply in j && j[Apply].receipt.Some? && j[Apply].receipt.value.outcome.SkipApply? ==> !Runs(j, Apply)
  {
    assert StageAt(1) == Check && StageAt(2) == Apply;
    assert Check in j ==> RecordOk(hash, binding, accepted, j, StageAt(1));
    assert Apply in j ==> RecordOk(hash, binding, accepted, j, StageAt(2)) && CompletedBefore(j, 2);
  }

  /** A new intent behind completed stages. */
  lemma IntentStep(hash: Hash, binding: nat, accepted: nat, j: Journal, now: nat, log: seq<Stage>, s: Stage)
    requires Sound(hash, binding, accepted, j, now, log) && s !in j && CompletedBefore(j, Number(s))
    ensures Sound(hash, binding, accepted, j[s := Record(Intent(binding, s, Runs(j, s), now), None)], now, log)
  {
    hide ValidReceipt, Completed;
    var next := j[s := Record(Intent(binding, s, Runs(j, s), now), None)];
    NoLaterStage(hash, binding, accepted, j, s);
    assert ValidReceipt(hash, s, Runs(j, s), None) by { NoReceiptIsValid(hash, s, Runs(j, s)); }
    forall i | 0 <= i < 4 && StageAt(i) in next
      ensures CompletedBefore(next, i) && RecordOk(hash, binding, accepted, next, StageAt(i)) {
      if StageAt(i) != s {
        assert CompletedBefore(j, i) && RecordOk(hash, binding, accepted, j, StageAt(i)) && i < Number(s);
        assert Runs(next, StageAt(i)) == Runs(j, StageAt(i));
      } else {
        assert i == Number(s);
        assert Runs(next, s) == Runs(j, s);
      }
    }
  }

  lemma NoReceiptIsValid(hash: Hash, s: Stage, run: bool)
    ensures ValidReceipt(hash, s, run, None)
  {
  }

  /** No record stands behind a stage that has none. */
  lemma NoLaterStage(hash: Hash, binding: nat, accepted: nat, j: Journal, s: Stage)
    requires JournalOk(hash, binding, accepted, j) && (s !in j || j[s].receipt.None?)
    ensures forall i :: Number(s) < i < 4 ==> StageAt(i) !in j
  {
    hide ValidReceipt;
    forall i | Number(s) < i < 4 ensures StageAt(i) !in j {
      var k := Number(s);
      assert !CompletedBefore(j, i) by { assert StageAt(k) == s; }
    }
  }

  /** A receipt behind its intent. */
  lemma ReceiptStep(hash: Hash, binding: nat, accepted: nat, j: Journal, now: nat, log: seq<Stage>, s: Stage,
      receipt: Receipt)
    requires Sound(hash, binding, accepted, j, now, log) && s in j && j[s].receipt.None?
    requires ValidReceipt(hash, s, Runs(j, s), Some(receipt)) && j[s].intent.created <= receipt.finished <= now
    ensures Sound(hash, binding, accepted, j[s := Record(j[s].intent, Some(receipt))], now, log)
  {
    hide ValidReceipt, Completed;
    var next := j[s := Record(j[s].intent, Some(receipt))];
    NoLaterStage(hash, binding, accepted, j, s);
    assert StageAt(Number(s)) == s && RecordOk(hash, binding, accepted, j, s);
    assert Runs(next, s) == Runs(j, s);
    forall i | 0 <= i < 4 && StageAt(i) in next
      ensures CompletedBefore(next, i) && RecordOk(hash, binding, accepted, next, StageAt(i)) {
      assert CompletedBefore(j, i) && RecordOk(hash, binding, accepted, j, StageAt(i)) && i <= Number(s);
      assert i < Number(s) ==> StageAt(i) != s && Runs(next, StageAt(i)) == Runs(j, StageAt(i));
    }
  }

  /** The handler of one accepted job. Its clock never goes back; every step may fail or be the last before a crash. */
  class Recipe {
    const hash: Hash
    const binding: nat
    const accepted: nat
    var journal: Journal
    var now: nat
    ghost var log: seq<Stage>

    ghost predicate Valid()
      reads this
    {
      Sound(hash, binding, accepted, journal, now, log)
    }

    constructor (hash: Hash, binding: nat, accepted: nat)
      ensures Valid() && journal == map[] && log == [] && this.hash == hash
    {
      this.hash, this.binding, this.accepted, journal, now, log := hash, binding, accepted, map[], accepted, [];
    }

    method Tick()
      requires Valid()
      modifies this`now
      ensures Valid() && old(now) <= now
    {
      var later: nat := *;
      if later > now { now := later; }
    }

    /** Execute: the intent, its script if it is to run, the receipt. A stage that has an intent is never run again. */
    method Execute(s: Stage, quiet: bool) returns (ok: bool)
      requires Valid()
      modifies this
      ensures Valid()
      ensures log == old(log) || (log == old(log) + [s] && s !in old(journal))
      ensures s in old(journal) ==> !ok && journal == old(journal) && log == old(log)
      ensures forall t :: t in old(journal) ==> t in journal && journal[t] == old(journal)[t]
      ensures ok ==>
        s in journal && Completed(s, journal[s].receipt) && log == old(log) + if Runs(old(journal), s) then [s] else []
      ensures ok && s.Apply? ==>
        Check in journal && journal[Check].receipt.Some?
          && log == old(log) + if journal[Check].receipt.value.exit == Some(3) then [Apply] else []
      ensures quiet && s !in old(journal) && CompletedBefore(old(journal), Number(s)) ==>
        s in journal && journal[s].receipt.Some?
    {
      hide Sound, ValidReceipt, JournalOk;
      SoundMeans();
      var rows := ReadStages(hash, binding, accepted, journal);
      if rows.None? { return false; }
      var i := Number(s);
      PriorRows(journal, i);
      if exists k :: 0 <= k < i && !rows.value[k].complete { return false; }
      CheckBeforeApply(s);
      if rows.value[i].record.Some? { return false; }
      var run := Runs(journal, s);
      Tick();
      IntentStep(hash, binding, accepted, journal, now, log, s);
      var fails: bool := *;
      if fails && !quiet { return false; }
      var record := Record(Intent(binding, s, run, now), None);
      RunsUnchanged(journal, s, record);
      journal := journal[s := record];
      fails := *;
      if fails && !quiet { return false; }
      var receipt: Receipt;
      if !run {
        Tick();
        receipt := Receipt(false, None, 0, 0, hash(""), hash(""), None, SkipApply, now);
        SkipIsValid(hash, receipt);
      } else {
        RunStep(s);
        log := log + [s];
        var result: Result := *;
        fails := *;
        if quiet && !InRange(result) { result := Result(0, "", ""); }
        if !quiet && (fails || !InRange(result)) { return false; }
        Tick();
        receipt := Received(hash, s, result, now);
        ReceivedIsValid(hash, s, result, now);
      }
      fails := *;
      if fails && !quiet { return false; }
      ReceiptStep(hash, binding, accepted, journal, now, log, s, receipt);
      journal := journal[s := Record(record.intent, Some(receipt))];
      return Completed(s, Some(receipt));
    }

    lemma SoundMeans()
      requires Valid()
      ensures JournalOk(hash, binding, accepted, journal)
      ensures forall s :: s in journal ==> journal[s].intent.created <= now
      ensures forall s :: s in log ==> s in journal
    {
    }

    /** By the time apply is due, the check's exit has decided whether it runs. */
    lemma CheckBeforeApply(s: Stage)
      requires Valid() && CompletedBefore(journal, Number(s))
      ensures s.Apply? ==>
        && Check in journal && journal[Check].receipt.Some?
        && (Runs(journal, Apply) <==> journal[Check].receipt.value.exit == Some(3))
    {
      CheckExits(hash, binding, accepted, journal);
      assert StageAt(1) == Check;
    }

    /** The script of a fresh intent runs. */
    lemma RunStep(s: Stage)
      requires Valid() && s in journal && journal[s].intent.run && s !in log
      ensures Sound(hash, binding, accepted, journal, now, log + [s])
    {
      hide JournalOk;
      var more := log + [s];
      assert forall a :: 0 <= a < |log| ==> more[a] == log[a] && log[a] in log;
    }

    /** Reconcile never runs a script: it is satisfied by completed receipts up to the stage. */
    method Reconcile(s: Stage, quiet: bool) returns (done: bool)
      requires Valid()
      ensures done ==> CompletedBefore(journal, Number(s) + 1)
      ensures quiet ==> (done <==> CompletedBefore(journal, Number(s) + 1))
    {
      hide Sound, ValidReceipt;
      SoundMeans();
      var fails: bool := *;
      if fails && !quiet { return false; }
      var rows := ReadStages(hash, binding, accepted, journal);
      if rows.None? { return false; }
      PriorRows(journal, Number(s) + 1);
      return forall k :: 0 <= k <= Number(s) ==> rows.value[k].complete;
    }

    /** Any run: stages executed and reconciled in any order, each cut short anywhere. The journal is never refused. */
    method Run(steps: nat)
      requires Valid()
      modifies this
      ensures Valid()
    {
      for n := 0 to steps
        invariant Valid()
      {
        var choice: nat, i: nat := *, *;
        var s := if i < 4 then StageAt(i) else Readiness;
        if choice == 0 {
          var _ := Execute(s, false);
        } else if choice == 1 {
          var _ := Reconcile(s, false);
        } else {
          Tick();
        }
        SoundMeans();
        var rows := ReadStages(hash, binding, accepted, journal);
        assert rows.Some?;
      }
    }
  }

  lemma PriorRows(j: Journal, i: nat)
    requires i <= 4
    ensures CompletedBefore(j, i) <==> forall k :: 0 <= k < i ==> Rows(j)[k].complete
  {
    hide Completed;
    assert forall k :: 0 <= k < 4 ==> Rows(j)[k] == RowOf(j, StageAt(k));
  }

  lemma RunsUnchanged(j: Journal, s: Stage, record: Record)
    requires s !in j
    ensures Runs(j[s := record], s) == Runs(j, s)
  {
  }

  lemma SkipIsValid(hash: Hash, r: Receipt)
    requires r == Receipt(false, None, 0, 0, hash(""), hash(""), None, SkipApply, r.finished)
    ensures ValidReceipt(hash, Apply, false, Some(r))
  {
  }
}
