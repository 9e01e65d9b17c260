/**
 * The host confirmation screen of the install wizard: it bootstraps the hosts
 * entered on the previous screen, polls the bootstrap status, then polls the
 * server until every host has registered, failed, or timed out.
 *
 * The AJAX calls, timers and the clock are not modelled: each success handler
 * is a method that takes the parsed response and the current time `now`
 * (milliseconds), and returns what it would schedule next.
 */
module WizardStep3 {
  import opened Wrappers
  import opened WizardHosts

  /** One host row: `App.HostInfo` with its `name`, `bootStatus` and `bootLog`
      (`None` while unset). */
  datatype HostRecord = HostRecord(name: string, bootStatus: BootStatus, bootLog: Option<string>)

  /** One entry of the bootstrap API's `hostsStatus`. */
  datatype StatusReport = StatusReport(hostName: string, status: BootStatus, log: Option<string>)

  /** `data.hostsStatus` as the server sends it: null, a lone object (when one
      host is bootstrapped), or an array. */
  datatype HostsStatus = NullStatus | SingleStatus(entry: StatusReport) | StatusList(entries: seq<StatusReport>)

  /** The parsed `/hosts` response of a registration poll: nothing (a falsy
      JSON value), or the `Hosts.host_name` of each of its `items`. */
  datatype RegisteredHosts = NoJson | Items(hostNames: seq<string>)

  /** What a registration poll leads to: nothing (no data), the host
      information request (`getHostInfo`) because polling stopped or timed
      out, or another poll in three seconds. */
  datatype CycleOutcome = NoData | Converged | Polling | TimedOut

  /** The five filter categories of the screen. */
  datatype Category = AllHosts | Success | Installing | RegisteringHosts | FailedHosts
  {
    /** `hostsBootStatus`: the status a category filters on; none for all hosts. */
    function FilterStatus(): Option<BootStatus> {
      match this
      case AllHosts => None
      case Success => Some(Registered)
      case Installing => Some(Running)
      case RegisteringHosts => Some(Registering)
      case FailedHosts => Some(Failed)
    }
  }

  /** What retrying failed hosts leads to. */
  datatype RetryAction =
    | NoRetry                                   // retry is disabled
    | BootstrapRequested(hostNames: seq<string>)  // a new bootstrap for these hosts, then status polls
    | RegistrationRestarted(polled: bool)       // manual install: every host back to DONE, registration restarted

  const RegisteringLine := "\nRegistering with the server..."
  const SucceededLine := "\nRegistration with the server succeeded."
  const FailedLine := "\nRegistration with the server failed."
  const RetryingLog := "Retrying ..."

  // ----- counting and filtering by status -----

  predicate HasStatus(hs: seq<HostRecord>, s: BootStatus) {
    exists i :: 0 <= i < |hs| && hs[i].bootStatus == s
  }

  function CountStatus(hs: seq<HostRecord>, s: BootStatus): nat {
    if hs == [] then 0
    else CountStatus(hs[..|hs| - 1], s) + (if hs[|hs| - 1].bootStatus == s then 1 else 0)
  }

  /** `filterProperty('bootStatus', s)`. */
  function WithStatus(hs: seq<HostRecord>, s: BootStatus): (r: seq<HostRecord>)
    ensures forall i :: 0 <= i < |r| ==> r[i].bootStatus == s && r[i] in hs
    ensures forall i :: 0 <= i < |hs| && hs[i].bootStatus == s ==> hs[i] in r
  {
    if hs == [] then []
    else WithStatus(hs[..|hs| - 1], s) + (if hs[|hs| - 1].bootStatus == s then [hs[|hs| - 1]] else [])
  }

  lemma {:induction false} WithStatusCounts(hs: seq<HostRecord>, s: BootStatus)
    ensures |WithStatus(hs, s)| == CountStatus(hs, s)
  {
    if hs != [] {
      WithStatusCounts(hs[..|hs| - 1], s);
    }
  }

  lemma {:induction false} CountStatusPositive(hs: seq<HostRecord>, s: BootStatus)
    ensures CountStatus(hs, s) > 0 <==> HasStatus(hs, s)
  {
    if hs != [] {
      var init := hs[..|hs| - 1];
      CountStatusPositive(init, s);
      if HasStatus(init, s) {
        var i :| 0 <= i < |init| && init[i].bootStatus == s;
        assert hs[i].bootStatus == s;
      }
      if HasStatus(hs, s) && hs[|hs| - 1].bootStatus != s {
        var i :| 0 <= i < |hs| && hs[i].bootStatus == s;
        assert init[i].bootStatus == s;
      }
    }
  }

  /** The counts of the four status categories never add up to more than
      the number of hosts: a host is in at most one of them. */
  lemma {:induction false} StatusCountsFitHosts(hs: seq<HostRecord>)
    ensures CountStatus(hs, Registered) + CountStatus(hs, Running) + CountStatus(hs, Registering)
      + CountStatus(hs, Failed) <= |hs|
  {
    if hs != [] {
      StatusCountsFitHosts(hs[..|hs| - 1]);
    }
  }

  // ----- applying a bootstrap status report (`parseHostInfo`) -----

  /** `removeObjects`: the rows not named, in their order. */
  function Without(hs: seq<HostRecord>, names: set<string>): (r: seq<HostRecord>)
    ensures forall i :: 0 <= i < |r| ==> r[i].name !in names && r[i] in hs
    ensures forall i :: 0 <= i < |hs| && hs[i].name !in names ==> hs[i] in r
  {
    if hs == [] then []
    else Without(hs[..|hs| - 1], names) + (if hs[|hs| - 1].name in names then [] else [hs[|hs| - 1]])
  }

  /** `findProperty('name', name)`: the index of the first host so named. */
  function FirstNamed(hs: seq<HostRecord>, name: string): (r: Option<nat>)
    ensures r.Some? ==> r.value < |hs| && hs[r.value].name == name
    ensures r.Some? ==> forall j :: 0 <= j < r.value ==> hs[j].name != name
    ensures r.None? ==> forall j :: 0 <= j < |hs| ==> hs[j].name != name
  {
    if hs == [] then None
    else if hs[0].name == name then Some(0)
    else match FirstNamed(hs[1..], name)
      case None => None
      case Some(i) => Some(i + 1)
  }

  /** Registration results are never overwritten by bootstrap reports, which
      come in on a separate polling loop. */
  predicate Protected(s: BootStatus) {
    s == Registered || s == Registering
  }

  /** One report entry: the first host of that name takes the reported status
      and log, unless it is protected. */
  function ApplyEntry(hs: seq<HostRecord>, e: StatusReport): seq<HostRecord> {
    match FirstNamed(hs, e.hostName)
    case None => hs
    case Some(i) =>
      if Protected(hs[i].bootStatus) then hs
      else hs[i := HostRecord(hs[i].name, e.status, e.log)]
  }

  /** A whole report, entry by entry in order. */
  function ApplyReport(hs: seq<HostRecord>, report: seq<StatusReport>): seq<HostRecord> {
    if report == [] then hs
    else ApplyEntry(ApplyReport(hs, report[..|report| - 1]), report[|report| - 1])
  }

  /** What the entries of a report do to one host on their own. */
  function HostStep(h: HostRecord, e: StatusReport): HostRecord {
    if e.hostName == h.name && !Protected(h.bootStatus) then HostRecord(h.name, e.status, e.log) else h
  }

  function HostFold(h: HostRecord, report: seq<StatusReport>): HostRecord {
    if report == [] then h else HostStep(HostFold(h, report[..|report| - 1]), report[|report| - 1])
  }

  /** A report keeps the hosts, their names and their order. */
  lemma {:induction false} ApplyReportKeepsNames(hs: seq<HostRecord>, report: seq<StatusReport>)
    ensures |ApplyReport(hs, report)| == |hs|
    ensures forall j :: 0 <= j < |hs| ==> ApplyReport(hs, report)[j].name == hs[j].name
  {
    if report != [] {
      ApplyReportKeepsNames(hs, report[..|report| - 1]);
    }
  }

  lemma {:induction false} FirstNamedByNames(a: seq<HostRecord>, b: seq<HostRecord>, name: string)
    requires |a| == |b| && forall j :: 0 <= j < |a| ==> a[j].name == b[j].name
    ensures FirstNamed(a, name) == FirstNamed(b, name)
  {
    if a != [] {
      FirstNamedByNames(a[1..], b[1..], name);
    }
  }

  /** The report's effect host by host: the first host of each name goes
      through the entries naming it, in order; a later host of the same name
      is never touched. */
  lemma {:induction false} ApplyReportPerHost(hs: seq<HostRecord>, report: seq<StatusReport>, i: nat)
    requires i < |hs|
    ensures |ApplyReport(hs, report)| == |hs|
    ensures ApplyReport(hs, report)[i] ==
      if FirstNamed(hs, hs[i].name) == Some(i) then HostFold(hs[i], report) else hs[i]
  {
    ApplyReportKeepsNames(hs, report);
    if report != [] {
      var init, e := report[..|report| - 1], report[|report| - 1];
      var before := ApplyReport(hs, init);
      ApplyReportPerHost(hs, init, i);
      ApplyReportKeepsNames(hs, init);
      FirstNamedByNames(before, hs, e.hostName);
    }
  }

  /** A registered or registering host keeps its record through any report. */
  lemma ProtectedHostUnchanged(hs: seq<HostRecord>, report: seq<StatusReport>, i: nat)
    requires i < |hs| && Protected(hs[i].bootStatus)
    ensures |ApplyReport(hs, report)| == |hs| && ApplyReport(hs, report)[i] == hs[i]
  {
    ApplyReportPerHost(hs, report, i);
    HostFoldKeepsProtected(hs[i], report);
  }

  lemma {:induction false} HostFoldKeepsProtected(h: HostRecord, report: seq<StatusReport>)
    requires Protected(h.bootStatus)
    ensures HostFold(h, report) == h
  {
    if report != [] {
      HostFoldKeepsProtected(h, report[..|report| - 1]);
    }
  }

  /** The last entry of a report naming `name`. */
  function LastEntryFor(report: seq<StatusReport>, name: string): (r: Option<StatusReport>)
    ensures r.Some? ==> r.value in report && r.value.hostName == name
    ensures r.None? ==> forall k :: 0 <= k < |report| ==> report[k].hostName != name
  {
    if report == [] then None
    else if report[|report| - 1].hostName == name then Some(report[|report| - 1])
    else LastEntryFor(report[..|report| - 1], name)
  }

  /** A host no entry names is left alone; a host that is not protected, and
      that the report does not move into a protected status, ends up with the
      status and the log (replacing the old one) of the last entry naming it. */
  lemma {:induction false} HostFoldTakesLastEntry(h: HostRecord, report: seq<StatusReport>)
    requires !Protected(h.bootStatus)
    requires forall k :: 0 <= k < |report| && report[k].hostName == h.name ==> !Protected(report[k].status)
    ensures HostFold(h, report) ==
      match LastEntryFor(report, h.name)
      case None => h
      case Some(e) => HostRecord(h.name, e.status, e.log)
  {
    if report != [] {
      HostFoldTakesLastEntry(h, report[..|report| - 1]);
    }
  }

  /** `parseHostInfo`'s answer: poll again while some boot host is RUNNING. */
  predicate KeepsPolling(boot: seq<HostRecord>) {
    |boot| != 0 && HasStatus(boot, Running)
  }

  // ----- one registration poll (`isHostsRegistered`) -----

  /** `(bootLog != null ? bootLog : '')` */
  function LogText(log: Option<string>): string {
    match log
    case None => ""
    case Some(s) => s
  }

  /** The `switch` on one host's status during a registration poll. */
  function Advance(h: HostRecord, listed: seq<string>): HostRecord {
    match h.bootStatus
    case Done => HostRecord(h.name, Registering, Some(LogText(h.bootLog) + RegisteringLine))
    case Registering =>
      if h.name in listed then HostRecord(h.name, Registered, Some(LogText(h.bootLog) + SucceededLine)) else h
    case _ => h
  }

  function AdvanceAll(hs: seq<HostRecord>, listed: seq<string>): seq<HostRecord>
  {
    seq(|hs|, i requires 0 <= i < |hs| => Advance(hs[i], listed))
  }

  /** A host that clears `stopPolling`: still bootstrapping, just finished
      bootstrapping, or registering without showing up in the server's list. */
  predicate HoldsPolling(h: HostRecord, listed: seq<string>) {
    h.bootStatus == Done || h.bootStatus == Running || (h.bootStatus == Registering && h.name !in listed)
  }

  predicate AnyHoldsPolling(hs: seq<HostRecord>, listed: seq<string>) {
    exists i :: 0 <= i < |hs| && HoldsPolling(hs[i], listed)
  }

  /** The timeout sweep on one host. */
  function FailRegistering(h: HostRecord): HostRecord {
    if h.bootStatus == Registering then HostRecord(h.name, Failed, Some(LogText(h.bootLog) + FailedLine)) else h
  }

  function TimeoutSweep(hs: seq<HostRecord>): seq<HostRecord>
  {
    seq(|hs|, i requires 0 <= i < |hs| => FailRegistering(hs[i]))
  }

  /** `new Date().getTime() - registrationStartedAt`, where a null start
      reads as 0. */
  function Elapsed(now: int, startedAt: Option<int>): int {
    match startedAt
    case None => now
    case Some(t) => now - t
  }

  /** A poll only moves a host forward along DONE, REGISTERING, REGISTERED. */
  predicate CycleMove(before: BootStatus, after: BootStatus) {
    || before == after
    || (before == Done && after == Registering)
    || (before == Registering && after == Registered)
  }

  /** Whether `a` is a prefix of `b`. */
  predicate IsPrefix(a: string, b: string) {
    |a| <= |b| && b[..|a|] == a
  }

  /** A poll keeps every host's name, moves its status forward, and only
      ever appends to its log. */
  lemma AdvanceMovesForward(h: HostRecord, listed: seq<string>)
    ensures var n := Advance(h, listed);
      && n.name == h.name && CycleMove(h.bootStatus, n.bootStatus)
      && (n != h ==> IsPrefix(LogText(h.bootLog), LogText(n.bootLog)))
  {
  }

  /** The sweep fails exactly the hosts still registering, appending to the
      log, and leaves no host registering. */
  lemma SweepFailsRegistering(hs: seq<HostRecord>)
    ensures !HasStatus(TimeoutSweep(hs), Registering)
    ensures forall i :: 0 <= i < |hs| ==>
      if hs[i].bootStatus == Registering
      then TimeoutSweep(hs)[i].bootStatus == Failed && IsPrefix(LogText(hs[i].bootLog), LogText(TimeoutSweep(hs)[i].bootLog))
      else TimeoutSweep(hs)[i] == hs[i]
  {
  }

  /** A timed-out poll fails every host that was DONE when it began, or
      REGISTERING and not listed: a host that finishes bootstrapping during
      the last poll gets no time to register. */
  lemma TimeoutFailsLateHosts(hs: seq<HostRecord>, listed: seq<string>, i: nat)
    requires i < |hs|
    requires hs[i].bootStatus == Done || (hs[i].bootStatus == Registering && hs[i].name !in listed)
    ensures TimeoutSweep(AdvanceAll(hs, listed))[i].bootStatus == Failed
  {
  }

  /** When a poll stops polling, a second poll changes nothing and stops too:
      no host is left that the switch would move. */
  lemma ConvergedPollIsFixpoint(hs: seq<HostRecord>, listed: seq<string>, listed2: seq<string>)
    requires !AnyHoldsPolling(hs, listed)
    ensures AdvanceAll(AdvanceAll(hs, listed), listed2) == AdvanceAll(hs, listed)
    ensures !AnyHoldsPolling(AdvanceAll(hs, listed), listed2)
  {
    var once := AdvanceAll(hs, listed);
    forall i | 0 <= i < |hs|
      ensures once[i].bootStatus != Done && once[i].bootStatus != Running && once[i].bootStatus != Registering
    {
      assert !HoldsPolling(hs[i], listed);
    }
  }

  // ----- retry -----

  /** The retry loop on one host: FAILED becomes RUNNING with log "Retrying ...". */
  function MarkRetrying(h: HostRecord): HostRecord {
    if h.bootStatus == Failed then HostRecord(h.name, Running, Some(RetryingLog)) else h
  }

  function MarkAllRetrying(hs: seq<HostRecord>): (r: seq<HostRecord>)
    ensures |r| == |hs| && forall i :: 0 <= i < |hs| ==> r[i] == MarkRetrying(hs[i])
  {
    seq(|hs|, i requires 0 <= i < |hs| => MarkRetrying(hs[i]))
  }

  /** `setEach('bootStatus', s)`. */
  function SetAllStatus(hs: seq<HostRecord>, s: BootStatus): (r: seq<HostRecord>)
    ensures |r| == |hs| && forall i :: 0 <= i < |hs| ==> r[i] == hs[i].(bootStatus := s)
  {
    seq(|hs|, i requires 0 <= i < |hs| => hs[i].(bootStatus := s))
  }

  function Names(hs: seq<HostRecord>): (r: seq<string>)
    ensures |r| == |hs| && forall i :: 0 <= i < |hs| ==> r[i] == hs[i].name
  {
    seq(|hs|, i requires 0 <= i < |hs| => hs[i].name)
  }

  /** `setEach` keeps every row and its name, and leaves every row in the status set. */
  lemma {:induction false} SetAllStatusCounts(hs: seq<HostRecord>, s: BootStatus)
    ensures Names(SetAllStatus(hs, s)) == Names(hs)
    ensures CountStatus(SetAllStatus(hs, s), s) == |hs|
    ensures forall t :: t != s ==> CountStatus(SetAllStatus(hs, s), t) == 0
  {
    if hs != [] {
      var init := hs[..|hs| - 1];
      SetAllStatusCounts(init, s);
      assert SetAllStatus(hs, s)[..|hs| - 1] == SetAllStatus(init, s);
    }
  }

  /** Retrying moves every failed host to RUNNING and nothing else:
      no host is left FAILED and the RUNNING count grows by the FAILED count. */
  lemma {:induction false} RetryCounts(hs: seq<HostRecord>)
    ensures CountStatus(MarkAllRetrying(hs), Failed) == 0
    ensures CountStatus(MarkAllRetrying(hs), Running) == CountStatus(hs, Running) + CountStatus(hs, Failed)
    ensures forall s :: s != Failed && s != Running ==> CountStatus(MarkAllRetrying(hs), s) == CountStatus(hs, s)
  {
    if hs != [] {
      var init := hs[..|hs| - 1];
      RetryCounts(init);
      assert MarkAllRetrying(hs)[..|hs| - 1] == MarkAllRetrying(init);
    }
  }

  // ----- the controller -----

  class Step3Controller {
    /** The host rows of the screen. */
    var hosts: seq<HostRecord>
    /** `bootHosts` starts as a list of its own, which nothing ever fills;
        bootstrapping (and the manual path) makes it the very same list as
        `hosts`, so that every update of a boot host is an update of `hosts`. */
    var bootHostsShared: bool
    var registrationStartedAt: Option<int>
    const registrationTimeoutSecs: int
    var isSubmitDisabled: bool
    var numPolls: int

    constructor ()
      ensures hosts == [] && !bootHostsShared && registrationStartedAt == None
      ensures registrationTimeoutSecs == 120 && isSubmitDisabled && numPolls == 0
    {
      hosts := [];
      bootHostsShared := false;
      registrationStartedAt := None;
      registrationTimeoutSecs := 120;
      isSubmitDisabled := true;
      numPolls := 0;
    }

    function BootHosts(): seq<HostRecord>
      reads this
    {
      if bootHostsShared then hosts else []
    }

    /** `hostsCount` of a category: all rows, or the rows with its status. */
    function HostsCount(c: Category): (n: nat)
      reads this
      ensures n <= |hosts|
      ensures c.FilterStatus().Some? ==> (n > 0 <==> HasStatus(hosts, c.FilterStatus().value))
    {
      match c.FilterStatus()
      case None => |hosts|
      case Some(s) =>
        CountStatusPositive(hosts, s);
        CountStatusAtMostLength(hosts, s);
        CountStatus(hosts, s)
    }

    /** `visibleHosts`: the rows the current category filter shows. */
    function VisibleHosts(c: Category): (r: seq<HostRecord>)
      reads this
      ensures |r| == HostsCount(c)
      ensures c.FilterStatus().Some? ==>
        forall i :: 0 <= i < |r| ==> r[i].bootStatus == c.FilterStatus().value && r[i] in hosts
      ensures c.FilterStatus().None? ==> r == hosts
    {
      match c.FilterStatus()
      case None => hosts
      case Some(s) =>
        WithStatusCounts(hosts, s);
        WithStatus(hosts, s)
    }

    /** `isRetryDisabled` */
    predicate IsRetryDisabled()
      reads this
    {
      !(HasStatus(BootHosts(), Failed) && !isSubmitDisabled)
    }

    /** `someProperty('bootStatus', s)` on the boot hosts. */
    method SomeBootHostHas(s: BootStatus) returns (found: bool)
      ensures found == HasStatus(BootHosts(), s)
    {
      var boot := BootHosts();
      found := false;
      var i := 0;
      while i < |boot| && !found
        invariant 0 <= i <= |boot|
        invariant found == exists j :: 0 <= j < i && boot[j].bootStatus == s
        invariant !found ==> forall j :: 0 <= j < i ==> boot[j].bootStatus != s
      {
        found := boot[i].bootStatus == s;
        i := i + 1;
      }
    }

    /** `clearStep` */
    method ClearStep()
      modifies this`hosts, this`isSubmitDisabled
      ensures hosts == [] && isSubmitDisabled
    {
      hosts := [];
      isSubmitDisabled := true;
    }

    /** `loadStep`: the rows are rebuilt from the saved host dictionary (name
        and status of each, no log), and submit is unlocked when there is one. */
    method LoadStep(stored: seq<HostInfo>)
      modifies this`hosts, this`isSubmitDisabled, this`registrationStartedAt
      ensures registrationStartedAt == None
      ensures |hosts| == |stored|
      ensures forall i :: 0 <= i < |stored| ==> hosts[i] == HostRecord(stored[i].name, stored[i].bootStatus, None)
      ensures isSubmitDisabled == (stored == [])
    {
      registrationStartedAt := None;
      ClearStep();
      var i := 0;
      while i < |stored|
        invariant 0 <= i <= |stored|
        invariant |hosts| == i && registrationStartedAt == None && isSubmitDisabled
        invariant forall j :: 0 <= j < i ==> hosts[j] == HostRecord(stored[j].name, stored[j].bootStatus, None)
      {
        hosts := hosts + [HostRecord(stored[i].name, stored[i].bootStatus, None)];
        i := i + 1;
      }
      if |hosts| > 0 {
        isSubmitDisabled := false;
      }
    }

    /** `removeHosts`, once confirmed: the named rows go, and submit locks
        when none is left. */
    method RemoveHosts(names: set<string>)
      modifies this`hosts, this`isSubmitDisabled
      ensures hosts == Without(old(hosts), names)
      ensures forall i :: 0 <= i < |hosts| ==> hosts[i].name !in names && hosts[i] in old(hosts)
      ensures forall i :: 0 <= i < |old(hosts)| && old(hosts)[i].name !in names ==> old(hosts)[i] in hosts
      ensures isSubmitDisabled == (old(isSubmitDisabled) || hosts == [])
    {
      var kept: seq<HostRecord> := [];
      var i := 0;
      while i < |hosts|
        invariant 0 <= i <= |hosts|
        invariant kept == Without(hosts[..i], names)
      {
        assert hosts[..i + 1][..i] == hosts[..i];
        if hosts[i].name !in names {
          kept := kept + [hosts[i]];
        }
        i := i + 1;
      }
      assert hosts[..i] == hosts;
      hosts := kept;
      if |hosts| == 0 {
        isSubmitDisabled := true;
      }
    }

    /** `doBootstrap`: counts the poll; the request itself is not modelled. */
    method DoBootstrap()
      modifies this`numPolls
      ensures numPolls == old(numPolls) + 1
    {
      numPolls := numPolls + 1;
    }

    /** `startBootstrap`: every row becomes a boot host in PENDING, and the
        first status poll goes out. */
    method StartBootstrap()
      modifies this`hosts, this`bootHostsShared, this`registrationStartedAt, this`numPolls
      ensures numPolls == 1 && registrationStartedAt == None && bootHostsShared
      ensures hosts == SetAllStatus(old(hosts), Pending)
    {
      numPolls := 0;
      registrationStartedAt := None;
      bootHostsShared := true;
      hosts := SetAllStatus(hosts, Pending);
      DoBootstrap();
    }

    /** `startRegistration`: only the first call after a reset records the
        time and sends the first registration poll. */
    method StartRegistration(now: int) returns (polled: bool)
      modifies this`registrationStartedAt
      ensures polled == old(registrationStartedAt).None?
      ensures registrationStartedAt == if polled then Some(now) else old(registrationStartedAt)
    {
      polled := false;
      if registrationStartedAt == None {
        registrationStartedAt := Some(now);
        polled := true;
      }
    }

    /** `navigateStep`: load the rows; on the automatic path start the
        bootstrap unless it already ran; on the manual path every row is a
        boot host in DONE and registration starts. */
    method NavigateStep(manualInstall: bool, bootstrapDone: bool, stored: seq<HostInfo>, now: int)
      returns (registrationPolled: bool)
      modifies this`hosts, this`bootHostsShared, this`registrationStartedAt, this`numPolls, this`isSubmitDisabled
      ensures isSubmitDisabled == (stored == [])
      ensures |hosts| == |stored| && forall i :: 0 <= i < |stored| ==> hosts[i].name == stored[i].name
      ensures forall i :: 0 <= i < |hosts| ==> hosts[i].bootLog == None
      ensures !manualInstall && !bootstrapDone ==>
        bootHostsShared && numPolls == 1 && registrationStartedAt == None
        && forall i :: 0 <= i < |hosts| ==> hosts[i].bootStatus == Pending
      ensures !manualInstall && bootstrapDone ==>
        registrationStartedAt == None && bootHostsShared == old(bootHostsShared) && numPolls == old(numPolls)
        && forall i :: 0 <= i < |stored| ==> hosts[i].bootStatus == stored[i].bootStatus
      ensures manualInstall ==>
        bootHostsShared && registrationPolled && registrationStartedAt == Some(now) && numPolls == old(numPolls)
        && forall i :: 0 <= i < |hosts| ==> hosts[i].bootStatus == Done
      ensures !manualInstall ==> !registrationPolled
    {
      LoadStep(stored);
      registrationPolled := false;
      if !manualInstall {
        if !bootstrapDone {
          StartBootstrap();
        }
      } else {
        bootHostsShared := true;
        registrationStartedAt := None;
        hosts := SetAllStatus(hosts, Done);
        registrationPolled := StartRegistration(now);
      }
    }

    /** `parseHostInfo`: applies a bootstrap status report to the boot hosts
        and says whether to poll the bootstrap status again. */
    method ParseHostInfo(report: seq<StatusReport>) returns (keepPolling: bool)
      modifies this`hosts
      ensures hosts == if bootHostsShared then ApplyReport(old(hosts), report) else old(hosts)
      ensures keepPolling == KeepsPolling(BootHosts())
    {
      var k := 0;
      while k < |report|
        invariant 0 <= k <= |report|
        invariant hosts == if bootHostsShared then ApplyReport(old(hosts), report[..k]) else old(hosts)
      {
        var e := report[k];
        var boot := BootHosts();
        var host := FirstNamed(boot, e.hostName);
        if host.Some? && !Protected(boot[host.value].bootStatus) {
          hosts := hosts[host.value := HostRecord(boot[host.value].name, e.status, e.log)];
        }
        assert report[..k + 1][..k] == report[..k];
        k := k + 1;
      }
      assert report[..k] == report;
      var running := SomeBootHostHas(Running);
      keepPolling := |BootHosts()| != 0 && running;
    }

    /** The success handler of the bootstrap status poll: a lone entry counts
        as a one-entry list; registration starts once some entry is DONE or
        FAILED; the status is polled again while `parseHostInfo` says so. */
    method OnBootstrapStatus(hostsStatus: HostsStatus, now: int) returns (pollAgain: bool, registrationPolled: bool)
      modifies this`hosts, this`registrationStartedAt
      ensures hostsStatus == NullStatus ==>
        !pollAgain && !registrationPolled && hosts == old(hosts) && registrationStartedAt == old(registrationStartedAt)
      ensures hostsStatus != NullStatus ==>
        var report := ReportEntries(hostsStatus);
        && hosts == (if bootHostsShared then ApplyReport(old(hosts), report) else old(hosts))
        && pollAgain == KeepsPolling(BootHosts())
        && registrationPolled == (ReportsFinished(report) && old(registrationStartedAt).None?)
        && registrationStartedAt == if registrationPolled then Some(now) else old(registrationStartedAt)
    {
      pollAgain, registrationPolled := false, false;
      if hostsStatus != NullStatus {
        var report := ReportEntries(hostsStatus);
        var keepPolling := ParseHostInfo(report);
        var finished := SomeEntryFinished(report);
        if finished {
          registrationPolled := StartRegistration(now);
        }
        pollAgain := keepPolling;
      }
    }

    /** `data.hostsStatus.someProperty('status', 'DONE') || ...('status', 'FAILED')` */
    static method SomeEntryFinished(report: seq<StatusReport>) returns (finished: bool)
      ensures finished == ReportsFinished(report)
    {
      finished := false;
      for i := 0 to |report|
        invariant finished == exists j :: 0 <= j < i && (report[j].status == Done || report[j].status == Failed)
      {
        if report[i].status == Done || report[i].status == Failed {
          finished := true;
        }
      }
    }

    /** The success handler of one registration poll. Each boot host goes
        through the status `switch`; polling stops when no host holds it;
        otherwise it goes on until `registrationTimeoutSecs` have passed since
        `registrationStartedAt`, which the poll itself never moves, and then
        every host still REGISTERING fails. */
    method OnRegistrationPoll(response: RegisteredHosts, now: int) returns (outcome: CycleOutcome)
      modifies this`hosts
      ensures response == NoJson ==> outcome == NoData && hosts == old(hosts)
      ensures response.Items? ==>
        var listed := response.hostNames;
        var advanced := AdvanceAll(old(BootHosts()), listed);
        && outcome == (if !AnyHoldsPolling(old(BootHosts()), listed) then Converged
                       else if Elapsed(now, registrationStartedAt) < registrationTimeoutSecs * 1000 then Polling
                       else TimedOut)
        && BootHosts() == (if outcome == TimedOut then TimeoutSweep(advanced) else advanced)
        && (!bootHostsShared ==> hosts == old(hosts))
    {
      if response == NoJson {
        return NoData;
      }
      var listed := response.hostNames;
      var stopPolling := AdvanceBootHosts(listed);
      if stopPolling {
        outcome := Converged;
      } else if Elapsed(now, registrationStartedAt) < registrationTimeoutSecs * 1000 {
        outcome := Polling;
      } else {
        FailRegisteringBootHosts();
        outcome := TimedOut;
      }
    }

    /** The first loop of the poll: each boot host moves on one step, and
        `stopPolling` stays true only if no host holds the polling. */
    method AdvanceBootHosts(listed: seq<string>) returns (stopPolling: bool)
      modifies this`hosts
      ensures BootHosts() == AdvanceAll(old(BootHosts()), listed)
      ensures stopPolling == !AnyHoldsPolling(old(BootHosts()), listed)
      ensures !bootHostsShared ==> hosts == old(hosts)
    {
      ghost var before := BootHosts();
      stopPolling := true;
      var i := 0;
      while i < |BootHosts()|
        invariant 0 <= i <= |before| && |BootHosts()| == |before|
        invariant !bootHostsShared ==> hosts == old(hosts)
        invariant forall j :: 0 <= j < i ==> BootHosts()[j] == Advance(before[j], listed)
        invariant forall j :: i <= j < |before| ==> BootHosts()[j] == before[j]
        invariant stopPolling == !exists j :: 0 <= j < i && HoldsPolling(before[j], listed)
      {
        var h := hosts[i];
        match h.bootStatus {
          case Done =>
            hosts := hosts[i := HostRecord(h.name, Registering, Some(LogText(h.bootLog) + RegisteringLine))];
            stopPolling := false;
          case Registering =>
            if h.name in listed {
              hosts := hosts[i := HostRecord(h.name, Registered, Some(LogText(h.bootLog) + SucceededLine))];
            } else {
              stopPolling := false;
            }
          case Running =>
            stopPolling := false;
          case _ =>
        }
        i := i + 1;
      }
      assert BootHosts() == AdvanceAll(before, listed);
    }

    /** The timeout branch of the poll: every boot host still registering fails. */
    method FailRegisteringBootHosts()
      modifies this`hosts
      ensures BootHosts() == TimeoutSweep(old(BootHosts()))
      ensures !bootHostsShared ==> hosts == old(hosts)
    {
      ghost var advanced := BootHosts();
      var j := 0;
      while j < |BootHosts()|
        invariant 0 <= j <= |advanced| && |BootHosts()| == |advanced|
        invariant !bootHostsShared ==> hosts == old(hosts)
        invariant forall k :: 0 <= k < j ==> BootHosts()[k] == FailRegistering(advanced[k])
        invariant forall k :: j <= k < |advanced| ==> BootHosts()[k] == advanced[k]
      {
        var h := hosts[j];
        if h.bootStatus == Registering {
          hosts := hosts[j := HostRecord(h.name, Failed, Some(LogText(h.bootLog) + FailedLine))];
        }
        j := j + 1;
      }
      assert BootHosts() == TimeoutSweep(advanced);
    }

    /** The result of the host information request that ends registration:
        success unlocks submit (`stopRegistration`); an error only shows a
        popup and leaves submit locked. */
    method OnHostInfoResult(success: bool)
      modifies this`isSubmitDisabled
      ensures isSubmitDisabled == (old(isSubmitDisabled) && !success)
    {
      if success {
        isSubmitDisabled := false;
      }
    }

    /** `retrySelectedHosts` followed by `retryHosts`. When retry is enabled,
        the FAILED boot hosts go back to RUNNING with log "Retrying ...", then
        either a new bootstrap is requested for them, or, on the manual path,
        every boot host is set to DONE and registration restarts. */
    method RetrySelectedHosts(manualInstall: bool, now: int) returns (action: RetryAction)
      modifies this`hosts, this`registrationStartedAt, this`numPolls
      ensures old(IsRetryDisabled()) ==>
        action == NoRetry && hosts == old(hosts) && registrationStartedAt == old(registrationStartedAt)
        && numPolls == old(numPolls)
      ensures !old(IsRetryDisabled()) && !manualInstall ==>
        && hosts == MarkAllRetrying(old(hosts))
        && action == BootstrapRequested(Names(WithStatus(old(hosts), Failed)))
        && registrationStartedAt == None && numPolls == 1
      ensures !old(IsRetryDisabled()) && manualInstall ==>
        && hosts == SetAllStatus(MarkAllRetrying(old(hosts)), Done)
        && action == RegistrationRestarted(true)
        && registrationStartedAt == Some(now) && numPolls == 0
    {
      if IsRetryDisabled() {
        return NoRetry;
      }
      // a failed boot host exists, so the boot hosts are the rows
      var selected := WithStatus(hosts, Failed);
      var i := 0;
      while i < |hosts|
        invariant 0 <= i <= |hosts| && |hosts| == |old(hosts)|
        invariant forall j :: 0 <= j < i ==> hosts[j] == MarkRetrying(old(hosts)[j])
        invariant forall j :: i <= j < |hosts| ==> hosts[j] == old(hosts)[j]
      {
        if hosts[i].bootStatus == Failed {
          hosts := hosts[i := HostRecord(hosts[i].name, Running, Some(RetryingLog))];
        }
        i := i + 1;
      }
      assert hosts == MarkAllRetrying(old(hosts));
      numPolls := 0;
      if !manualInstall {
        registrationStartedAt := None;
        DoBootstrap();
        action := BootstrapRequested(Names(selected));
      } else {
        registrationStartedAt := None;
        hosts := SetAllStatus(hosts, Done);
        var polled := StartRegistration(now);
        action := RegistrationRestarted(polled);
      }
    }

    /** `submit`: hands the boot hosts on, unless submit is locked. */
    method Submit() returns (handedOn: Option<seq<HostRecord>>)
      ensures handedOn == if isSubmitDisabled then None else Some(BootHosts())
    {
      handedOn := None;
      if !isSubmitDisabled {
        handedOn := Some(BootHosts());
      }
    }
  }

  lemma {:induction false} CountStatusAtMostLength(hs: seq<HostRecord>, s: BootStatus)
    ensures CountStatus(hs, s) <= |hs|
  {
    if hs != [] {
      CountStatusAtMostLength(hs[..|hs| - 1], s);
    }
  }

  /** The entries of a status payload: a lone object counts as a list of one. */
  function ReportEntries(hostsStatus: HostsStatus): seq<StatusReport>
    requires hostsStatus != NullStatus
  {
    match hostsStatus
    case SingleStatus(e) => [e]
    case StatusList(entries) => entries
  }

  predicate ReportsFinished(report: seq<StatusReport>) {
    exists j :: 0 <= j < |report| && (report[j].status == Done || report[j].status == Failed)
  }
}
