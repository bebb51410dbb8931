/** Creating a publication, while others claim and release at any point.

    A hosted name is claimed under the record key minted here: the label the
    author chose, or the first of the suggested one and its numbered
    candidates that is neither taken nor reserved. The record is written
    next. A refused write releases the claim, and so does one whose answer
    was lost; a server that chose a record
    key of its own makes the claim move, by a release and a second claim;
    last come the preferences that designate the publication.

    What may fail are the parameters of the steps: the database, the write,
    a release, the second claim, the preferences. The request may be dropped
    at any await; what it was waiting for then may or may not still be done. */
module CreatePublication {
  import opened Claims
  import opened Wrappers

  /** A chosen label, one suggested from the account or the next free, or
      no hosted name. */
  datatype Home = Hosted(raw: string) | HostedOrNext(handle: Option<string>) | Elsewhere

  datatype Failure =
    | BadName
    | NameReserved
    | NameTaken
    | Database
    | Refused(released: bool)
    | UnusableReceipt(written: string)
    | NotMoved
    | PreferencesRefused

  datatype Pc =
    | Claiming(n: nat)
    | Writing(claimed: Option<string>)
    | Releasing
    | MoveReleasing(written: string, name: string)
    | MoveClaiming(written: string, name: string)
    | Recording(written: string, claimed: Option<string>)
    | Created(written: string, claimed: Option<string>)
    | Failed(failure: Failure)

  /** `asked` is the record key minted for the publication; `server` one
      the author's server may use instead. */
  datatype Job = Job(home: Home, asked: string, server: string, did: string)

  /** A record at the author's server: its key, and the hosted name its
      address uses. */
  datatype Written = Written(key: string, name: Option<string>)

  /** A dropped request does at most what it was waiting for. */
  datatype Life = Running | Dropped | Over

  datatype State = State(table: Table, record: Option<Written>, pc: Pc, life: Life)

  /** An unusable receipt is of a record all the same. A lost answer, or
      one that cannot be read, counts as a refusal, though the server may
      have written the record. */
  datatype Receipt = Refusal | Lost(written: string) | Unusable(written: string) | Accepted(written: string)

  datatype Action =
    | TryClaim(now: int, fault: Fault)
    | Write(receipt: Receipt)
    | ReleaseClaim(fails: bool)
    | ClaimAgain(now: int, fault: Fault)
    | Record(ok: bool)
    | Drop
    | OtherClaims(raw: string, uri: string, did: string, now: int, fault: Fault)
    | OtherReleases(uri: string, fails: bool)

  /** A step of the job's own, as against one by others. */
  predicate Own(a: Action) {
    !a.Drop? && !a.OtherClaims? && !a.OtherReleases?
  }

  predicate Enabled(job: Job, s: State, a: Action) {
    && (Own(a) ==> !s.life.Over?)
    && match a
       case TryClaim(_, _) => s.pc.Claiming?
       case Write(r) => s.pc.Writing? && (!r.Refusal? ==> r.written == job.asked || r.written == job.server)
       case ReleaseClaim(_) => s.pc.Releasing? || s.pc.MoveReleasing?
       case ClaimAgain(_, _) => s.pc.MoveClaiming?
       case Record(_) => s.pc.Recording?
       case Drop => s.life.Running? && !s.pc.Created? && !s.pc.Failed?
       case OtherClaims(_, uri, _, _, _) => uri != job.asked && uri != job.server
       case OtherReleases(uri, _) => uri != job.asked && uri != job.server
  }

  function Do(job: Job, s: State, a: Action): State
    requires Enabled(job, s, a)
  {
    if a.Drop? then s.(life := Dropped)
    else if Own(a) && s.life.Dropped? then Step(job, s, a).(life := Over)
    else Step(job, s, a)
  }

  function Step(job: Job, s: State, a: Action): State
    requires Enabled(job, s, a) && !a.Drop?
  {
    match a
    case TryClaim(now, fault) => DoClaim(job, s, now, fault)
    case Write(receipt) => DoWrite(job, s, receipt)
    case ReleaseClaim(fails) =>
      s.(
        table := if fails then s.table else DeleteUri(s.table, job.asked),
        pc := if s.pc.Releasing? then Failed(Refused(!fails)) else MoveClaiming(s.pc.written, s.pc.name))
    case ClaimAgain(now, fault) =>
      var (table, outcome) := ClaimStep(s.table, s.pc.name, s.pc.written, job.did, now, fault);
      s.(table := table,
         pc := if outcome.Claimed? then Recording(s.pc.written, Some(s.pc.name)) else Failed(NotMoved))
    case Record(ok) =>
      s.(pc := if ok then Created(s.pc.written, s.pc.claimed) else Failed(PreferencesRefused))
    case OtherClaims(raw, uri, did, now, fault) => s.(table := ClaimStep(s.table, raw, uri, did, now, fault).0)
    case OtherReleases(uri, fails) => s.(table := if fails then s.table else DeleteUri(s.table, uri))
  }

  function DoClaim(job: Job, s: State, now: int, fault: Fault): State
    requires s.pc.Claiming?
  {
    match job.home
    case Elsewhere => s.(pc := Writing(None))
    case Hosted(raw) =>
      var (table, outcome) := ClaimStep(s.table, raw, job.asked, job.did, now, fault);
      s.(table := table,
         pc := if outcome.Claimed? then Writing(Some(ValidateName(raw).name)) else Failed(FailureOf(outcome)))
    case HostedOrNext(handle) =>
      var name := Candidate(SuggestName(job.did, handle), s.pc.n);
      var (table, outcome) := ClaimStep(s.table, name, job.asked, job.did, now, fault);
      s.(table := table, pc :=
        if outcome.Claimed? then Writing(Some(name))
        else if outcome.Taken? || outcome.ReservedName? then
          (if s.pc.n < MAX_SUFFIX then Claiming(s.pc.n + 1) else Failed(NameTaken))
        else Failed(FailureOf(outcome)))
  }

  function FailureOf(outcome: Outcome): Failure {
    match outcome
    case InvalidName => BadName
    case ReservedName => NameReserved
    case Taken => NameTaken
    case _ => Database
  }

  function DoWrite(job: Job, s: State, receipt: Receipt): State
    requires s.pc.Writing?
  {
    match receipt
    case Refusal => s.(pc := if s.pc.claimed.Some? then Releasing else Failed(Refused(true)))
    case Lost(written) =>
      s.(record := Some(Written(written, s.pc.claimed)),
         pc := if s.pc.claimed.Some? then Releasing else Failed(Refused(true)))
    case Unusable(written) =>
      s.(record := Some(Written(written, s.pc.claimed)), pc := Failed(UnusableReceipt(written)))
    case Accepted(written) =>
      s.(record := Some(Written(written, s.pc.claimed)), pc :=
        if written == job.asked || s.pc.claimed.None? then Recording(written, s.pc.claimed)
        else MoveReleasing(written, s.pc.claimed.value))
  }

  // ---- runs ----

  predicate Runs(job: Job, s: State, run: seq<Action>)
    decreases |run|
  {
    run == [] || (Enabled(job, s, run[0]) && Runs(job, Do(job, s, run[0]), run[1..]))
  }

  function After(job: Job, s: State, run: seq<Action>): State
    requires Runs(job, s, run)
    decreases |run|
  {
    if run == [] then s else After(job, Do(job, s, run[0]), run[1..])
  }

  ghost predicate NoClaim(t: Table, uri: string) {
    forall n | n in t :: t[n].uri != uri
  }

  /** `name` is what `uri` holds. */
  ghost predicate Holds(t: Table, uri: string, name: string) {
    name in t && t[name].uri == uri
  }

  ghost predicate Unclaimed(t: Table, job: Job) {
    NoClaim(t, job.asked) && NoClaim(t, job.server)
  }

  /** The claim is the asked key's, and its alone. */
  ghost predicate AskedHolds(t: Table, job: Job, name: string) {
    && !job.home.Elsewhere? && Claimable(name) && Holds(t, job.asked, name)
    && (job.server != job.asked ==> NoClaim(t, job.server))
  }

  /** The claim is the written key's, and its alone. */
  ghost predicate WrittenHolds(t: Table, job: Job, written: string, claimed: Option<string>) {
    match claimed
    case None => job.home.Elsewhere? && Unclaimed(t, job)
    case Some(name) =>
      && !job.home.Elsewhere? && Holds(t, written, name)
      && (written != job.asked ==> NoClaim(t, job.asked))
      && (written != job.server ==> NoClaim(t, job.server))
  }

  ghost predicate Inv(job: Job, s: State) {
    TableOk(s.table) && InvAt(job, s.table, s.record, s.pc)
  }

  ghost predicate InvAt(job: Job, t: Table, record: Option<Written>, pc: Pc) {
    match pc
    case Claiming(n) => record.None? && Unclaimed(t, job) && 1 <= n <= MAX_SUFFIX
    case Writing(claimed) => record.None? && Prepared(t, job, claimed)
    case Releasing => exists name :: AskedHolds(t, job, name) && KeptFor(job, record, Some(name))
    case MoveReleasing(written, name) =>
      && written == job.server != job.asked && record == Some(Written(written, Some(name)))
      && AskedHolds(t, job, name)
    case MoveClaiming(written, name) =>
      && written == job.server != job.asked && record == Some(Written(written, Some(name)))
      && !job.home.Elsewhere? && Claimable(name) && NoClaim(t, job.server)
      && (Holds(t, job.asked, name) || NoClaim(t, job.asked))
    case Recording(written, claimed) => Settled(t, job, record) && record == Some(Written(written, claimed))
    case Created(written, claimed) => Settled(t, job, record) && record == Some(Written(written, claimed))
    case Failed(failure) => FailedAt(job, t, record, failure)
  }

  /** Before the write. */
  ghost predicate Prepared(t: Table, job: Job, claimed: Option<string>) {
    match claimed
    case None => job.home.Elsewhere? && Unclaimed(t, job)
    case Some(name) => AskedHolds(t, job, name)
  }

  /** After the write, and after the move if there is one. */
  ghost predicate Settled(t: Table, job: Job, record: Option<Written>) {
    && record.Some? && (record.value.key == job.asked || record.value.key == job.server)
    && WrittenHolds(t, job, record.value.key, record.value.name)
  }

  /** A name is claimed unless the publication's home is elsewhere. */
  ghost predicate IsHome(job: Job, claimed: Option<string>) {
    claimed.None? <==> job.home.Elsewhere?
  }

  /** After a write that failed: what the server kept of it, if anything. */
  ghost predicate KeptFor(job: Job, record: Option<Written>, claimed: Option<string>) {
    match record
    case None => true
    case Some(r) => r.name == claimed && (r.key == job.asked || r.key == job.server)
  }

  ghost predicate FailedAt(job: Job, t: Table, record: Option<Written>, failure: Failure) {
    match failure
    case Refused(released) =>
      if released then Unclaimed(t, job) && exists claimed :: KeptFor(job, record, claimed) && IsHome(job, claimed)
      else exists name :: AskedHolds(t, job, name) && KeptFor(job, record, Some(name))
    case UnusableReceipt(written) =>
      && record.Some? && record.value.key == written && (written == job.asked || written == job.server)
      && Prepared(t, job, record.value.name)
    case NotMoved =>
      record.Some? && record.value.key == job.server != job.asked && record.value.name.Some? && NoClaim(t, job.server)
    case PreferencesRefused => Settled(t, job, record)
    case BadName => record.None? && Unclaimed(t, job) && job.home.Hosted?
    case _ => record.None? && Unclaimed(t, job)
  }

  /** What `mine` has in one table it has in another. */
  ghost predicate Stays(t: Table, t': Table, mine: string) {
    && (NoClaim(t, mine) ==> NoClaim(t', mine))
    && (forall name | Holds(t, mine, name) :: Holds(t', mine, name))
  }

  lemma OthersKeepRows(t: Table, t': Table, uri: string, mine: string)
    requires OthersKept(t, t', uri) && uri != mine
    ensures Stays(t, t', mine)
  {
  }

  /** What an invariant is made of stays when both keys' rows do. */
  ghost predicate PartsStay(job: Job, t: Table, t': Table) {
    && (Unclaimed(t, job) ==> Unclaimed(t', job))
    && (NoClaim(t, job.server) ==> NoClaim(t', job.server))
    && (NoClaim(t, job.asked) ==> NoClaim(t', job.asked))
    && (forall name | Holds(t, job.asked, name) :: Holds(t', job.asked, name))
    && (forall name | AskedHolds(t, job, name) :: AskedHolds(t', job, name))
    && (forall record | Settled(t, job, record) :: Settled(t', job, record))
    && (forall claimed | Prepared(t, job, claimed) :: Prepared(t', job, claimed))
  }

  lemma RowsStay(job: Job, t: Table, t': Table)
    requires Stays(t, t', job.asked) && Stays(t, t', job.server)
    ensures PartsStay(job, t, t')
  {
    hide NoClaim;
    hide Holds;
    hide Claimable;
  }

  lemma InvStays(job: Job, t: Table, t': Table, record: Option<Written>, pc: Pc)
    requires InvAt(job, t, record, pc) && PartsStay(job, t, t')
    ensures InvAt(job, t', record, pc)
  {
    hide NoClaim;
    hide Holds;
    hide Claimable;
    hide Unclaimed;
    hide AskedHolds;
    hide Settled;
    hide Prepared;
  }

  /** A step by others leaves both keys' rows alone. */
  lemma OthersKeepInv(job: Job, s: State, table: Table, uri: string)
    requires Inv(job, s) && TableOk(table) && OthersKept(s.table, table, uri)
    requires uri != job.asked && uri != job.server
    ensures Inv(job, s.(table := table))
  {
    hide InvAt;
    hide PartsStay;
    hide TableOk;
    OthersKeepRows(s.table, table, uri, job.asked);
    OthersKeepRows(s.table, table, uri, job.server);
    RowsStay(job, s.table, table);
    InvStays(job, s.table, table, s.record, s.pc);
  }

  /** What a claim by the asked key leaves. */
  lemma AskedClaims(job: Job, t: Table, raw: string, now: int, fault: Fault)
    requires TableOk(t) && Unclaimed(t, job) && !job.home.Elsewhere?
    ensures var (t', outcome) := ClaimStep(t, raw, job.asked, job.did, now, fault);
      && TableOk(t')
      && (outcome.Claimed? ==> ValidateName(raw).Valid? && AskedHolds(t', job, ValidateName(raw).name))
      && (!outcome.Claimed? ==> Unclaimed(t', job))
      && (outcome.InvalidName? ==> !ValidateName(raw).Valid? && !ValidateName(raw).Reserved?)
  {
    ClaimKeepsTable(t, raw, job.asked, job.did, now, fault);
    ValidIsClaimable(raw);
  }

  lemma SuggestedNameIsRead(job: Job, handle: Option<string>, n: nat)
    requires 1 <= n <= MAX_SUFFIX
    ensures var name := Candidate(SuggestName(job.did, handle), n);
      ValidateName(name) == Reserved || ValidateName(name) == Valid(name)
  {
    SuggestionIsWellFormed(job.did, handle);
    CandidateIsWellFormed(SuggestName(job.did, handle), n);
    WellFormedIsValid(Candidate(SuggestName(job.did, handle), n));
  }

  lemma HostedClaimKeepsInv(job: Job, s: State, now: int, fault: Fault)
    requires Inv(job, s) && s.pc.Claiming? && job.home.Hosted?
    ensures Inv(job, DoClaim(job, s, now, fault))
  {
    hide ValidateName;
    hide ClaimStep;
    hide TableOk;
    hide NoClaim;
    hide Holds;
    hide Claimable;
    hide AskedHolds;
    hide Unclaimed;
    AskedClaims(job, s.table, job.home.raw, now, fault);
  }

  lemma NextClaimKeepsInv(job: Job, s: State, now: int, fault: Fault)
    requires Inv(job, s) && s.pc.Claiming? && job.home.HostedOrNext?
    ensures Inv(job, DoClaim(job, s, now, fault))
  {
    hide ValidateName;
    hide SuggestName;
    hide Candidate;
    hide ClaimStep;
    hide TableOk;
    hide NoClaim;
    hide Holds;
    hide Claimable;
    hide AskedHolds;
    hide Unclaimed;
    AskedClaims(job, s.table, Candidate(SuggestName(job.did, job.home.handle), s.pc.n), now, fault);
    SuggestedNameIsRead(job, job.home.handle, s.pc.n);
  }

  lemma ElsewhereKeepsInv(job: Job, s: State, now: int, fault: Fault)
    requires Inv(job, s) && s.pc.Claiming? && job.home.Elsewhere?
    ensures Inv(job, DoClaim(job, s, now, fault))
  {
    hide TableOk;
  }

  lemma ClaimKeepsInv(job: Job, s: State, now: int, fault: Fault)
    requires Inv(job, s) && s.pc.Claiming?
    ensures Inv(job, DoClaim(job, s, now, fault))
  {
    hide *;
    match job.home
    case Elsewhere => ElsewhereKeepsInv(job, s, now, fault);
    case Hosted(_) => HostedClaimKeepsInv(job, s, now, fault);
    case HostedOrNext(_) => NextClaimKeepsInv(job, s, now, fault);
  }

  lemma WriteKeepsInv(job: Job, s: State, receipt: Receipt)
    requires Inv(job, s) && Enabled(job, s, Write(receipt))
    ensures Inv(job, DoWrite(job, s, receipt))
  {
    hide TableOk;
    hide NoClaim;
    hide Holds;
    hide Claimable;
    var record := DoWrite(job, s, receipt).record;
    if s.pc.claimed.Some? {
      assert AskedHolds(s.table, job, s.pc.claimed.value) && KeptFor(job, record, s.pc.claimed);
    } else {
      assert KeptFor(job, record, None) && IsHome(job, None);
    }
  }

  lemma ReleaseKeepsInv(job: Job, s: State, fails: bool)
    requires Inv(job, s) && Enabled(job, s, ReleaseClaim(fails))
    ensures Inv(job, Step(job, s, ReleaseClaim(fails)))
  {
    hide Claimable;
    if !fails {
      ReleaseKeepsTable(s.table, job.asked);
    }
    if s.pc.Releasing? {
      var name :| AskedHolds(s.table, job, name) && KeptFor(job, s.record, Some(name));
      assert IsHome(job, Some(name));
    }
  }

  /** Moving the claim: it follows the record, or is refused while the
      asked key or another publication holds the name. */
  lemma MoveKeepsInv(job: Job, s: State, now: int, fault: Fault)
    requires Inv(job, s) && Enabled(job, s, ClaimAgain(now, fault))
    ensures Inv(job, Step(job, s, ClaimAgain(now, fault)))
  {
    hide ClaimStep;
    hide TableOk;
    hide NoClaim;
    hide Holds;
    hide Claimable;
    MoveLeaves(job, s.table, s.pc.name, now, fault);
  }

  lemma MoveLeaves(job: Job, t: Table, name: string, now: int, fault: Fault)
    requires TableOk(t) && Claimable(name) && NoClaim(t, job.server) && job.server != job.asked
    requires Holds(t, job.asked, name) || NoClaim(t, job.asked)
    ensures var (t', outcome) := ClaimStep(t, name, job.server, job.did, now, fault);
      && TableOk(t')
      && (outcome.Claimed? ==> Holds(t', job.server, name) && NoClaim(t', job.asked))
      && (!outcome.Claimed? ==> NoClaim(t', job.server))
  {
    ClaimKeepsTable(t, name, job.server, job.did, now, fault);
  }

  lemma StepKeepsInv(job: Job, s: State, a: Action)
    requires Inv(job, s) && Enabled(job, s, a) && !a.Drop?
    ensures Inv(job, Step(job, s, a))
  {
    hide Inv;
    hide ClaimStep;
    if a.TryClaim? {
      ClaimKeepsInv(job, s, a.now, a.fault);
    } else if a.Write? {
      WriteKeepsInv(job, s, a.receipt);
    } else if a.ReleaseClaim? {
      ReleaseKeepsInv(job, s, a.fails);
    } else if a.ClaimAgain? {
      MoveKeepsInv(job, s, a.now, a.fault);
    } else if a.Record? {
      RecordKeepsInv(job, s, a.ok);
    } else {
      OtherStepKeepsInv(job, s, a);
    }
  }

  lemma RecordKeepsInv(job: Job, s: State, ok: bool)
    requires Inv(job, s) && Enabled(job, s, Record(ok))
    ensures Inv(job, Step(job, s, Record(ok)))
  {
    hide TableOk;
    hide Settled;
  }

  lemma OtherStepKeepsInv(job: Job, s: State, a: Action)
    requires Inv(job, s) && Enabled(job, s, a) && (a.OtherClaims? || a.OtherReleases?)
    ensures Inv(job, Step(job, s, a))
  {
    hide InvAt;
    hide ClaimStep;
    hide TableOk;
    if a.OtherClaims? {
      ClaimKeepsTable(s.table, a.raw, a.uri, a.did, a.now, a.fault);
      OthersKeepInv(job, s, ClaimStep(s.table, a.raw, a.uri, a.did, a.now, a.fault).0, a.uri);
    } else {
      ReleaseKeepsTable(s.table, a.uri);
      if !a.fails {
        OthersKeepInv(job, s, DeleteUri(s.table, a.uri), a.uri);
      }
    }
  }

  lemma {:induction false} RunKeepsInv(job: Job, s: State, run: seq<Action>)
    requires Inv(job, s) && Runs(job, s, run)
    ensures Inv(job, After(job, s, run))
    decreases |run|
  {
    if run != [] {
      hide InvAt;
      hide Step;
      hide TableOk;
      if !run[0].Drop? {
        StepKeepsInv(job, s, run[0]);
      }
      RunKeepsInv(job, Do(job, s, run[0]), run[1..]);
    }
  }

  /** A job about to begin. */
  function Begun(table: Table): State {
    State(table, None, Claiming(1), Running)
  }

  lemma AllRunsKeepInv(job: Job, table: Table, run: seq<Action>)
    requires TableOk(table) && Unclaimed(table, job)
    requires Runs(job, Begun(table), run)
    ensures Inv(job, After(job, Begun(table), run))
  {
    RunKeepsInv(job, Begun(table), run);
  }

  /** Over every run, with others claiming and releasing at any point: the
      table stays one-to-one. When the publication is created its claim,
      if it is hosted, names the record that was written, and no other key
      of the job has one; after a refused write whose release worked no
      claim of it is left, nor a record but one whose answer was lost; and a
      suggested name is never called invalid. */
  lemma ClaimFollowsRecord(job: Job, table: Table, run: seq<Action>)
    requires TableOk(table) && Unclaimed(table, job)
    requires Runs(job, Begun(table), run)
    ensures var s := After(job, Begun(table), run);
      && TableOk(s.table)
      && (s.pc.Created? ==>
            && s.record == Some(Written(s.pc.written, s.pc.claimed))
            && WrittenHolds(s.table, job, s.pc.written, s.pc.claimed))
      && (s.pc == Failed(Refused(true)) ==>
            Unclaimed(s.table, job) && (s.record.Some? ==> exists a :: a in run && LosesAnswer(a)))
      && (s.pc == Failed(BadName) ==> job.home.Hosted?)
  {
    hide Runs;
    hide After;
    hide Unclaimed;
    hide TableOk;
    hide WrittenHolds;
    AllRunsKeepInv(job, table, run);
    if forall a | a in run :: !LosesAnswer(a) {
      NoAnswerLost(job, Begun(table), run);
    }
    hide LosesAnswer;
  }

  predicate LosesAnswer(a: Action) {
    a.Write? && a.receipt.Lost?
  }

  /** With no answer lost nothing is kept of a refused write. */
  ghost predicate RefusedIsGone(s: State) {
    (s.pc.Claiming? || s.pc.Writing? || s.pc.Releasing? || (s.pc.Failed? && s.pc.failure.Refused?)) ==> s.record.None?
  }

  lemma {:induction false} NoAnswerLost(job: Job, s: State, run: seq<Action>)
    requires Runs(job, s, run) && RefusedIsGone(s)
    requires forall a | a in run :: !LosesAnswer(a)
    ensures RefusedIsGone(After(job, s, run))
    decreases |run|
  {
    if run != [] {
      assert run[0] in run && forall a | a in run[1..] :: a in run;
      StepIsGone(job, s, run[0]);
      NoAnswerLost(job, Do(job, s, run[0]), run[1..]);
    }
  }

  lemma StepIsGone(job: Job, s: State, a: Action)
    requires Enabled(job, s, a) && RefusedIsGone(s) && !LosesAnswer(a)
    ensures RefusedIsGone(Do(job, s, a))
  {
    hide ClaimStep;
    hide DeleteUri;
  }

  // ---- which name it gets ----

  /** A try whose name was taken or reserved. */
  predicate IsRefused(job: Job, s: State, a: Action)
    requires Enabled(job, s, a)
  {
    a.TryClaim? && job.home.HostedOrNext? &&
    var name := Candidate(SuggestName(job.did, job.home.handle), s.pc.n);
    var outcome := ClaimStep(s.table, name, job.asked, job.did, a.now, a.fault).1;
    outcome.Taken? || outcome.ReservedName?
  }

  function Refusals(job: Job, s: State, run: seq<Action>): nat
    requires Runs(job, s, run)
    decreases |run|
  {
    if run == [] then 0
    else (if IsRefused(job, s, run[0]) then 1 else 0) + Refusals(job, Do(job, s, run[0]), run[1..])
  }

  /** After so many names were refused as taken or reserved: the next is due;
      or it was claimed; or the 99th was refused. */
  predicate Tried(job: Job, pc: Pc, refused: nat) {
    job.home.HostedOrNext? ==>
      match pc
      case Claiming(n) => n == refused + 1 <= 99
      case Writing(claimed) =>
        refused < 99 && claimed == Some(Candidate(SuggestName(job.did, job.home.handle), refused + 1))
      case Failed(failure) => failure.NameTaken? ==> refused == 99
      case _ => true
  }

  lemma StepIsTried(job: Job, s: State, a: Action, refused: nat)
    requires Enabled(job, s, a) && Tried(job, s.pc, refused)
    ensures Tried(job, Do(job, s, a).pc, refused + if IsRefused(job, s, a) then 1 else 0)
  {
    hide ClaimStep;
    hide Candidate;
    hide SuggestName;
    hide DeleteUri;
    hide ValidateName;
  }

  lemma {:induction false} RunIsTried(job: Job, s: State, run: seq<Action>, refused: nat)
    requires Runs(job, s, run) && Tried(job, s.pc, refused)
    ensures Tried(job, After(job, s, run).pc, refused + Refusals(job, s, run))
    decreases |run|
  {
    hide Do;
    hide Enabled;
    hide Tried;
    hide IsRefused;
    if run != [] {
      StepIsTried(job, s, run[0], refused);
      RunIsTried(job, Do(job, s, run[0]), run[1..], refused + if IsRefused(job, s, run[0]) then 1 else 0);
    }
  }

  /** Over every run: the suggested name and its numbered candidates are
      tried in order, each after the one before was taken or reserved; and
      none is found only after 99 were. */
  lemma NamesAreTriedInOrder(job: Job, table: Table, run: seq<Action>)
    requires Runs(job, Begun(table), run)
    ensures Tried(job, After(job, Begun(table), run).pc, Refusals(job, Begun(table), run))
  {
    RunIsTried(job, Begun(table), run, 0);
  }

  // ---- how it ends ----

  function OwnSteps(run: seq<Action>): nat {
    if run == [] then 0 else (if Own(run[0]) then 1 else 0) + OwnSteps(run[1..])
  }

  /** A dropped request takes at most the step it was waiting for. */
  lemma {:induction false} DroppedTakesOneStep(job: Job, s: State, run: seq<Action>)
    requires Runs(job, s, run)
    ensures s.life.Dropped? ==> OwnSteps(run) <= 1
    ensures s.life.Over? ==> OwnSteps(run) == 0
    decreases |run|
  {
    if run != [] && !s.life.Running? {
      hide Step;
      LifeGoesOn(job, s, run[0]);
      DroppedTakesOneStep(job, Do(job, s, run[0]), run[1..]);
    }
  }

  lemma LifeGoesOn(job: Job, s: State, a: Action)
    requires Enabled(job, s, a) && !s.life.Running?
    ensures Do(job, s, a).life == if Own(a) then Over else s.life
    ensures s.life.Over? ==> !Own(a)
  {
    hide ClaimStep;
    hide DeleteUri;
  }

  /** Created only when the preferences that designate it were accepted, and
      failed for them only when they were not. */
  predicate Designated(pc: Pc, run: seq<Action>) {
    && (pc.Created? ==> Record(true) in run)
    && (pc == Failed(PreferencesRefused) ==> Record(false) in run)
  }

  lemma {:induction false} EndsAreDesignated(job: Job, s: State, run: seq<Action>)
    requires Runs(job, s, run)
    requires !s.pc.Created? && s.pc != Failed(PreferencesRefused)
    ensures Designated(After(job, s, run).pc, run)
    decreases |run|
  {
    if run != [] {
      StepDesignates(job, s, run[0]);
      var t := Do(job, s, run[0]);
      hide Do;
      if t.pc.Created? || t.pc == Failed(PreferencesRefused) {
        EndStays(job, t, run[1..]);
      } else {
        EndsAreDesignated(job, t, run[1..]);
      }
    }
  }

  lemma StepDesignates(job: Job, s: State, a: Action)
    requires Enabled(job, s, a) && !s.pc.Created? && s.pc != Failed(PreferencesRefused)
    ensures Do(job, s, a).pc.Created? ==> a == Record(true)
    ensures Do(job, s, a).pc == Failed(PreferencesRefused) ==> a == Record(false)
  {
    hide ClaimStep;
    hide DeleteUri;
  }

  lemma {:induction false} EndStays(job: Job, s: State, run: seq<Action>)
    requires Runs(job, s, run) && (s.pc.Created? || s.pc.Failed?)
    ensures After(job, s, run).pc == s.pc
    decreases |run|
  {
    if run != [] {
      hide ClaimStep;
      hide DeleteUri;
      assert Do(job, s, run[0]).pc == s.pc;
      EndStays(job, Do(job, s, run[0]), run[1..]);
    }
  }

  // ---- claim and record ----

  /** No claim without a record, or the record's key holds the name its
      address uses, if it uses one, and no other key holds any. */
  ghost predicate Agrees(job: Job, s: State) {
    match s.record
    case None => Unclaimed(s.table, job)
    case Some(r) =>
      && (match r.name
          case Some(name) => Holds(s.table, r.key, name)
          case None => NoClaim(s.table, r.key))
      && (r.key != job.asked ==> NoClaim(s.table, job.asked))
      && (r.key != job.server ==> NoClaim(s.table, job.server))
  }

  /** Where a job may stop, or be dropped, without leaving claim and record
      at odds: not between a claim and its record, nor before a claim has
      followed its record, nor after a refused move. After a write that
      failed they agree when nothing is hosted, when the release worked and
      the server kept no record, and, while the release is due or once it
      has failed, when the record was kept under the key it was asked for;
      after an unusable receipt, when nothing is hosted or the key is that. */
  predicate AgreesAt(job: Job, record: Option<Written>, pc: Pc) {
    match pc
    case Writing(claimed) => claimed.None?
    case Releasing => KeptAsAsked(job, record)
    case MoveReleasing(_, _) => false
    case MoveClaiming(_, _) => false
    case Failed(failure) =>
      (match failure
       case Refused(released) =>
         job.home.Elsewhere? || if released then record.None? else KeptAsAsked(job, record)
       case UnusableReceipt(written) => job.home.Elsewhere? || written == job.asked
       case NotMoved => false
       case _ => true)
    case _ => true
  }

  predicate KeptAsAsked(job: Job, record: Option<Written>) {
    record.Some? && record.value.key == job.asked
  }

  lemma AgreesIffAt(job: Job, s: State)
    requires Inv(job, s)
    ensures Agrees(job, s) <==> AgreesAt(job, s.record, s.pc)
  {
    hide TableOk;
    hide Claimable;
    HeldIsClaimed(s.table, job.asked);
  }

  lemma HeldIsClaimed(t: Table, uri: string)
    ensures forall name | Holds(t, uri, name) :: !NoClaim(t, uri)
  {
  }

  /** In every reachable state, whatever fails, wherever the request is
      dropped and whatever others do: claim and record agree exactly where
      `AgreesAt` says. */
  lemma ClaimAndRecordAgreeIff(job: Job, table: Table, run: seq<Action>)
    requires TableOk(table) && Unclaimed(table, job)
    requires Runs(job, Begun(table), run)
    ensures var s := After(job, Begun(table), run);
      Agrees(job, s) <==> AgreesAt(job, s.record, s.pc)
  {
    AllRunsKeepInv(job, table, run);
    AgreesIffAt(job, After(job, Begun(table), run));
  }

  /** The move can be refused: between the release and the second claim
      another publication takes the name, and the record's address names a
      host that is not its own. */
  lemma AnotherTakesTheName(job: Job, name: string, other: string) returns (run: seq<Action>)
    requires job.home == Hosted(name) && ValidateName(name) == Valid(name)
    requires job.asked != job.server && other != job.asked && other != job.server
    ensures Runs(job, Begun(map[]), run)
    ensures var s := After(job, Begun(map[]), run);
      && s.pc == Failed(NotMoved) && s.record == Some(Written(job.server, Some(name)))
      && Holds(s.table, other, name)
  {
    hide ValidateName;
    run := [TryClaim(0, NoFault), Write(Accepted(job.server)), ReleaseClaim(false),
            OtherClaims(name, other, job.did, 0, NoFault), ClaimAgain(0, NoFault)];
    var s1 := State(map[name := Row(job.asked, job.did, 0)], None, Writing(Some(name)), Running);
    var s2 := s1.(record := Some(Written(job.server, Some(name))), pc := MoveReleasing(job.server, name));
    var s3 := s2.(table := map[], pc := MoveClaiming(job.server, name));
    var s4 := s3.(table := map[name := Row(other, job.did, 0)]);
    var s5 := s4.(pc := Failed(NotMoved));
    assert Leads(job, Begun(map[]), run[0], s1);
    assert Leads(job, s1, run[1], s2);
    assert Leads(job, s2, run[2], s3);
    assert Leads(job, s3, run[3], s4);
    assert Leads(job, s4, run[4], s5);
    hide Leads;
    Follows(job, [Begun(map[]), s1, s2, s3, s4, s5], run);
  }

  /** The server keeps the record under the key it was asked for, the answer
      is lost, and the release works: the record's address names a host that
      nobody holds. */
  lemma LostAnswerLeavesARecord(job: Job, name: string) returns (run: seq<Action>)
    requires job.home == Hosted(name) && ValidateName(name) == Valid(name)
    ensures Runs(job, Begun(map[]), run)
    ensures var s := After(job, Begun(map[]), run);
      && s.pc == Failed(Refused(true)) && s.record == Some(Written(job.asked, Some(name))) && s.table == map[]
      && !Agrees(job, s)
  {
    hide ValidateName;
    run := [TryClaim(0, NoFault), Write(Lost(job.asked)), ReleaseClaim(false)];
    var s1 := State(map[name := Row(job.asked, job.did, 0)], None, Writing(Some(name)), Running);
    var s2 := s1.(record := Some(Written(job.asked, Some(name))), pc := Releasing);
    var s3 := s2.(table := map[], pc := Failed(Refused(true)));
    assert Leads(job, Begun(map[]), run[0], s1);
    assert Leads(job, s1, run[1], s2);
    assert Leads(job, s2, run[2], s3);
    hide Leads;
    Follows(job, [Begun(map[]), s1, s2, s3], run);
  }

  predicate Leads(job: Job, s: State, a: Action, t: State) {
    Enabled(job, s, a) && Do(job, s, a) == t
  }

  lemma {:induction false} Follows(job: Job, states: seq<State>, run: seq<Action>)
    requires |states| == |run| + 1
    requires forall k | 0 <= k < |run| :: Leads(job, states[k], run[k], states[k + 1])
    ensures Runs(job, states[0], run) && After(job, states[0], run) == states[|run|]
    decreases |run|
  {
    if run != [] {
      hide Do;
      hide Enabled;
      forall k | 0 <= k < |run| - 1
        ensures Leads(job, states[1..][k], run[1..][k], states[1..][k + 1])
      {
        assert Leads(job, states[k + 1], run[k + 1], states[k + 1 + 1]);
      }
      assert Leads(job, states[0], run[0], states[0 + 1]);
      Follows(job, states[1..], run[1..]);
    }
  }

  lemma SameIsKept(t: Table, uri: string)
    ensures OthersKept(t, t, uri)
  {
  }

  /** A job's step changes rows of one of its own keys only. */
  lemma JobKeepsToItsKeys(job: Job, s: State, a: Action)
    requires Inv(job, s) && Enabled(job, s, a) && Own(a)
    ensures || OthersKept(s.table, Do(job, s, a).table, job.asked)
            || OthersKept(s.table, Do(job, s, a).table, job.server)
  {
    hide TableOk;
    hide ClaimStep;
    hide OthersKept;
    hide DeleteUri;
    assert a.ClaimAgain? ==> s.pc.written == job.server;
    hide InvAt;
    SameIsKept(s.table, job.asked);
    if a.TryClaim? {
      FirstClaimKeepsToItsKey(job, s, a.now, a.fault);
    } else if a.ReleaseClaim? {
      ReleaseKeepsTable(s.table, job.asked);
    } else if a.ClaimAgain? {
      ClaimKeepsTable(s.table, s.pc.name, s.pc.written, job.did, a.now, a.fault);
    }
  }

  lemma FirstClaimKeepsToItsKey(job: Job, s: State, now: int, fault: Fault)
    requires TableOk(s.table) && s.pc.Claiming?
    ensures OthersKept(s.table, DoClaim(job, s, now, fault).table, job.asked)
  {
    hide TableOk;
    hide ClaimStep;
    hide OthersKept;
    hide Candidate;
    hide SuggestName;
    hide ValidateName;
    SameIsKept(s.table, job.asked);
    if job.home.Hosted? {
      ClaimKeepsTable(s.table, job.home.raw, job.asked, job.did, now, fault);
    } else if job.home.HostedOrNext? {
      var name := Candidate(SuggestName(job.did, job.home.handle), s.pc.n);
      ClaimKeepsTable(s.table, name, job.asked, job.did, now, fault);
    }
  }

  /** No step of a job touches what other publications hold. */
  lemma JobKeepsOthers(job: Job, s: State, a: Action, n: string)
    requires Inv(job, s) && Enabled(job, s, a) && Own(a)
    requires n in s.table && s.table[n].uri != job.asked && s.table[n].uri != job.server
    ensures n in Do(job, s, a).table && Do(job, s, a).table[n] == s.table[n]
  {
    hide Inv;
    hide Do;
    JobKeepsToItsKeys(job, s, a);
  }
}
