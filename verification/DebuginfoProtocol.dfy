/**
 The upload protocol for debuginfos, seen at one metadata object: which calls are accepted in which
 state, and what holds over every sequence of calls.
 */
module DebuginfoProtocol {
  import opened Options

  type UploadId = int

  datatype UploadState = StateUnknown | Uploading | Uploaded | Purged
  datatype Source = SourceUnknown | FromUpload | FromDebuginfod
  datatype UploadRecord =
    UploadRecord(id: UploadId, hash: string, state: UploadState, startedAt: int, finishedAt: Option<int>)
  datatype Quality = Quality(notValidElf: bool, hasDwarf: bool, hasGoPclntab: bool, hasSymtab: bool, hasDynsym: bool)
  datatype DebuginfoType = Unspecified | Executable | Sources | SourceMap
  datatype Debuginfo = Debuginfo(buildId: string, typ: DebuginfoType, source: Source, servers: seq<string>,
                                 upload: Option<UploadRecord>, quality: Option<Quality>)

  datatype BuildIdType = UnknownBuildId | Gnu | Hash | Go | SourceMapDebugId

  datatype Reason =
    | InDebuginfod | FirstTimeSeen | UploadStale | UploadInProgress | UploadInProgressButForced
    | AlreadyPresent | AlreadyPresentButForced | Invalid | Equal | NotEqual | WasPurged
    | DebuginfodSource | DebuginfodInvalid

  datatype Code = InvalidArgument | Internal | AlreadyExists | FailedPrecondition | NotFound | Unimplemented

  /** What the debuginfod servers say: the lookup fails, or the (possibly no) servers that have it. */
  datatype Lookup = LookupFailed | Found(servers: seq<string>)

  datatype Request = Request(buildId: string, typ: DebuginfoType, buildIdType: BuildIdType, hash: string, force: bool)

  /** Durations and times in seconds. */
  datatype Config = Config(maxUploadDuration: nat, maxUploadSize: int, signedUpload: bool)

  const STALE_GRACE := 120

  predicate IsStale(cfg: Config, u: UploadRecord, now: int) {
    u.startedAt + cfg.maxUploadDuration + STALE_GRACE < now
  }

  predicate MarkedInvalid(d: Debuginfo) {
    d.quality.Some? && d.quality.value.notValidElf
  }

  predicate ShortId(buildId: string) {
    |buildId| <= 2
  }

  datatype Outcome =
    | Answer(should: bool, reason: Reason)
    | Issued(id: UploadId)
    | Done
    | Refused(code: Code)

  /** The metadata of an object, or none. */
  type Object = Option<Debuginfo>

  predicate AsksDebuginfod(t: BuildIdType) {
    t == Gnu || t == UnknownBuildId
  }

  /** The answer to whether an upload should be initiated, and the metadata afterwards. */
  function ShouldInitiate(cfg: Config, obj: Object, req: Request, lookup: Lookup, now: int): (Object, Outcome) {
    if ShortId(req.buildId) then (obj, Refused(InvalidArgument))
    else
      match obj
      case None =>
        if !AsksDebuginfod(req.buildIdType) then (obj, Answer(true, FirstTimeSeen))
        else (match lookup
              case LookupFailed => (obj, Refused(Internal))
              case Found(servers) =>
                if servers == [] then (obj, Answer(true, FirstTimeSeen))
                else (Some(Debuginfo(req.buildId, req.typ, FromDebuginfod, servers, None, None)),
                  Answer(false, InDebuginfod)))
      case Some(d) => (obj, Known(cfg, d, req, now))
  }

  function Known(cfg: Config, d: Debuginfo, req: Request, now: int): Outcome {
    match d.source
    case SourceUnknown => Refused(Internal)
    case FromDebuginfod => if MarkedInvalid(d) then Answer(true, DebuginfodInvalid) else Answer(false, DebuginfodSource)
    case FromUpload =>
      if d.upload.None? then Refused(Internal)
      else
        match d.upload.value.state
        case StateUnknown => Refused(Internal)
        case Uploading =>
          if req.force then Answer(true, UploadInProgressButForced)
          else if IsStale(cfg, d.upload.value, now) then Answer(true, UploadStale)
          else Answer(false, UploadInProgress)
        case Uploaded =>
          if !MarkedInvalid(d) then
            (if req.force then Answer(true, AlreadyPresentButForced) else Answer(false, AlreadyPresent))
          else if req.hash == "" then Answer(true, Invalid)
          else if d.upload.value.hash == req.hash then Answer(false, Equal)
          else Answer(true, NotEqual)
        case Purged => Answer(true, WasPurged)
  }

  function Fresh(req: Request, id: UploadId, now: int): Debuginfo {
    Debuginfo(req.buildId, req.typ, FromUpload, [], Some(UploadRecord(id, req.hash, Uploading, now, None)), None)
  }

  /** Initiating asks again whether to upload before it issues the given new id. */
  function Initiate(cfg: Config, obj: Object, req: Request, size: int, lookup: Lookup, now: int, id: UploadId,
      signed: bool): (Object, Outcome) {
    if req.hash == "" || size == 0 then (obj, Refused(InvalidArgument))
    else
      var (asked, outcome) := ShouldInitiate(cfg, obj, req, lookup, now);
      if !outcome.Answer? then (asked, outcome)
      else if !outcome.should then (asked,
        Refused(if outcome.reason == Equal then AlreadyExists else FailedPrecondition))
      else if size > cfg.maxUploadSize then (asked, Refused(InvalidArgument))
      else if cfg.signedUpload && !signed then (asked, Refused(Internal))
      else (Some(Fresh(req, id, now)), Issued(id))
  }

  function Upload(cfg: Config, obj: Object, buildId: string, id: UploadId): Outcome {
    if cfg.signedUpload then Refused(Unimplemented)
    else if ShortId(buildId) then Refused(InvalidArgument)
    else if obj.None? || obj.value.upload.None? then Refused(FailedPrecondition)
    else if obj.value.upload.value.id != id then Refused(InvalidArgument)
    else Done
  }

  function WithState(d: Debuginfo, state: UploadState): Debuginfo
    requires d.upload.Some?
  {
    d.(upload := Some(d.upload.value.(state := state)))
  }

  /** Finishing an upload; missing metadata is an internal error, missing upload metadata is not found. */
  function Finish(obj: Object, buildId: string, id: UploadId, now: int): (Object, Outcome) {
    if ShortId(buildId) then (obj, Refused(InvalidArgument))
    else if obj.None? then (obj, Refused(Internal))
    else if obj.value.upload.None? then (obj, Refused(NotFound))
    else if obj.value.upload.value.id != id then (obj, Refused(InvalidArgument))
    else
      var u := obj.value.upload.value.(state := Uploaded, finishedAt := Some(now));
      (Some(obj.value.(upload := Some(u))), Done)
  }

  function SetQuality(obj: Object, quality: Option<Quality>): Object {
    if obj.None? then obj else Some(obj.value.(quality := quality))
  }

  function Purge(obj: Object): Object {
    if obj.None? || obj.value.upload.None? then obj else Some(WithState(obj.value, Purged))
  }

  // Runs.

  datatype Call =
    | CallShould(req: Request, lookup: Lookup, now: int)
    | CallInitiate(req: Request, size: int, lookup: Lookup, now: int, newId: UploadId, signed: bool)
    | CallUpload(buildId: string, id: UploadId)
    | CallFinish(buildId: string, id: UploadId, now: int)
    | CallSetQuality(quality: Option<Quality>)
    | CallPurge

  function Step(cfg: Config, obj: Object, c: Call): (Object, Outcome) {
    match c
    case CallShould(req, lookup, now) => ShouldInitiate(cfg, obj, req, lookup, now)
    case CallInitiate(req, size, lookup, now, id, signed) => Initiate(cfg, obj, req, size, lookup, now, id, signed)
    case CallUpload(buildId, id) => (obj, Upload(cfg, obj, buildId, id))
    case CallFinish(buildId, id, now) => Finish(obj, buildId, id, now)
    case CallSetQuality(quality) => (SetQuality(obj, quality), Done)
    case CallPurge => (Purge(obj), Done)
  }

  /** The metadata after a sequence of calls that starts with none. */
  function After(cfg: Config, calls: seq<Call>): Object {
    if calls == [] then None
    else Step(cfg, After(cfg, calls[..|calls| - 1]), calls[|calls| - 1]).0
  }

  function OutcomeAt(cfg: Config, calls: seq<Call>, k: nat): Outcome
    requires k < |calls|
  {
    Step(cfg, After(cfg, calls[..k]), calls[k]).1
  }

  ghost predicate IssuesAt(cfg: Config, calls: seq<Call>, k: nat)
    requires k < |calls|
  {
    OutcomeAt(cfg, calls, k).Issued?
  }

  predicate HasTime(c: Call) {
    c.CallShould? || c.CallInitiate? || c.CallFinish?
  }

  /** New ids are never used twice and the clock does not go back. */
  ghost predicate ProperRun(calls: seq<Call>) {
    && (forall i, j :: 0 <= i < j < |calls| && calls[i].CallInitiate? && calls[j].CallInitiate? ==>
          calls[i].newId != calls[j].newId)
    && (forall i, j :: 0 <= i < j < |calls| && HasTime(calls[i]) && HasTime(calls[j]) ==> calls[i].now <= calls[j].now)
  }

  /** The last call that issued an id. */
  ghost function LastIssue(cfg: Config, calls: seq<Call>): (r: Option<nat>)
    ensures r.Some? ==> r.value < |calls|
  {
    if calls == [] then None
    else if IssuesAt(cfg, calls, |calls| - 1) then Some(|calls| - 1)
    else LastIssue(cfg, calls[..|calls| - 1])
  }

  lemma {:induction false} OnlyInitiateIssues(cfg: Config, calls: seq<Call>)
    requires calls != []
    ensures IssuesAt(cfg, calls, |calls| - 1) ==> calls[|calls| - 1].CallInitiate?
  {
    hide After, Initiate;
  }

  lemma {:induction false} LastIssueIsLast(cfg: Config, calls: seq<Call>)
    ensures
      match LastIssue(cfg, calls)
      case None => forall k :: 0 <= k < |calls| ==> !IssuesAt(cfg, calls, k)
      case Some(n) =>
        && IssuesAt(cfg, calls, n) && calls[n].CallInitiate?
        && forall k :: n < k < |calls| ==> !IssuesAt(cfg, calls, k)
  {
    hide After, Initiate, ShouldInitiate, Finish, Upload;
    if calls != [] {
      var init := calls[..|calls| - 1];
      LastIssueIsLast(cfg, init);
      OnlyInitiateIssues(cfg, calls);
      forall k | 0 <= k < |init| ensures IssuesAt(cfg, calls, k) <==> IssuesAt(cfg, init, k) {
        assert calls[..k] == init[..k];
      }
    }
  }

  /** The stored upload was begun by the call that issued an id last. */
  ghost predicate BegunBy(u: UploadRecord, c: Call) {
    c.CallInitiate? && u.id == c.newId && u.hash == c.req.hash && u.startedAt == c.now && u.state != StateUnknown
  }

  ghost predicate Consistent(cfg: Config, obj: Object, calls: seq<Call>) {
    match LastIssue(cfg, calls)
    case None => obj.Some? ==> obj.value.upload.None? && obj.value.source == FromDebuginfod
    case Some(n) =>
      && obj.Some? && obj.value.source == FromUpload && obj.value.upload.Some?
      && BegunBy(obj.value.upload.value, calls[n])
  }

  /** In every run: metadata with an upload exists once an id was issued, and holds the last one issued. */
  lemma {:induction false} RunConsistent(cfg: Config, calls: seq<Call>)
    ensures Consistent(cfg, After(cfg, calls), calls)
  {
    if calls != [] {
      var init := calls[..|calls| - 1];
      RunConsistent(cfg, init);
      StepConsistent(cfg, calls);
    }
  }

  lemma {:induction false} StepConsistent(cfg: Config, calls: seq<Call>)
    requires calls != [] && Consistent(cfg, After(cfg, calls[..|calls| - 1]), calls[..|calls| - 1])
    ensures Consistent(cfg, After(cfg, calls), calls)
  {
    hide Known;
    var n := |calls| - 1;
    var init := calls[..n];
    var obj := After(cfg, init);
    if IssuesAt(cfg, calls, n) {
      InitiateIssues(cfg, obj, calls[n]);
    } else {
      KeepsUpload(cfg, obj, calls[n]);
    }
  }

  lemma InitiateIssues(cfg: Config, obj: Object, c: Call)
    requires Step(cfg, obj, c).1.Issued?
    ensures c.CallInitiate? && Step(cfg, obj, c) == (Some(Fresh(c.req, c.newId, c.now)), Issued(c.newId))
  {
  }

  /** A call that issues nothing keeps who began the upload, and never removes metadata. */
  lemma KeepsUpload(cfg: Config, obj: Object, c: Call)
    requires !Step(cfg, obj, c).1.Issued?
    ensures
      var obj' := Step(cfg, obj, c).0;
      && (obj.None? && obj'.Some? ==> obj'.value.source == FromDebuginfod && obj'.value.upload.None?)
      && (obj.Some? ==> obj'.Some? && obj'.value.source == obj.value.source)
      && (obj.Some? && obj.value.upload.None? ==> obj'.value.upload.None?)
      && (obj.Some? && obj.value.upload.Some? ==>
            && obj'.value.upload.Some?
            && obj'.value.upload.value.id == obj.value.upload.value.id
            && obj'.value.upload.value.hash == obj.value.upload.value.hash
            && obj'.value.upload.value.startedAt == obj.value.upload.value.startedAt
            && (|| obj'.value.upload.value.state == obj.value.upload.value.state
                || obj'.value.upload.value.state != StateUnknown))
  {
  }

  // Which ids are accepted.

  ghost predicate Accepts(cfg: Config, obj: Object, id: UploadId) {
    exists c: Call :: (c.CallUpload? || c.CallFinish?) && c.id == id && Step(cfg, obj, c).1 == Done
  }

  lemma {:induction false} AcceptsStored(cfg: Config, obj: Object, id: UploadId)
    ensures Accepts(cfg, obj, id) <==> obj.Some? && obj.value.upload.Some? && obj.value.upload.value.id == id
  {
    if obj.Some? && obj.value.upload.Some? && obj.value.upload.value.id == id {
      var c := CallFinish("abc", id, 0);
      assert Step(cfg, obj, c).1 == Done;
    }
  }

  /** An id is accepted, by the upload call or the finishing call, exactly if it is the one issued last. */
  lemma {:induction false} OnlyTheLastIsAccepted(cfg: Config, calls: seq<Call>, id: UploadId)
    ensures Accepts(cfg, After(cfg, calls), id) <==>
            LastIssue(cfg, calls).Some? && OutcomeAt(cfg, calls, LastIssue(cfg, calls).value) == Issued(id)
  {
    var obj := After(cfg, calls);
    RunConsistent(cfg, calls);
    AcceptsStored(cfg, obj, id);
    LastIssueIsLast(cfg, calls);
    if LastIssue(cfg, calls).Some? {
      var n := LastIssue(cfg, calls).value;
      InitiateIssues(cfg, After(cfg, calls[..n]), calls[n]);
    }
  }

  /** Once a later id has been issued, an earlier one is refused in every continuation. */
  lemma {:induction false} SupersededForEver(cfg: Config, calls: seq<Call>, i: nat, j: nat)
    requires ProperRun(calls) && i < j < |calls| && IssuesAt(cfg, calls, i) && IssuesAt(cfg, calls, j)
    ensures !Accepts(cfg, After(cfg, calls), OutcomeAt(cfg, calls, i).id)
  {
    InitiateIssues(cfg, After(cfg, calls[..i]), calls[i]);
    LastIssueIsLast(cfg, calls);
    var n := LastIssue(cfg, calls).value;
    assert n >= j;
    InitiateIssues(cfg, After(cfg, calls[..n]), calls[n]);
    OnlyTheLastIsAccepted(cfg, calls, calls[i].newId);
  }

  // When an id is issued.

  /**
   Whether an upload of the given metadata is wanted. Only for GNU build ids, and for build ids of an
   unknown type, the debuginfod servers are asked; an upload is stale two minutes after its time is over.
   */
  ghost predicate Wanted(cfg: Config, obj: Object, req: Request, lookup: Lookup, now: int) {
    match obj
    case None => req.buildIdType in {Hash, Go, SourceMapDebugId} || lookup == Found([])
    case Some(d) =>
      var invalid := d.quality.Some? && d.quality.value.notValidElf;
      || (d.source == FromDebuginfod && invalid)
      || (d.source == FromUpload && d.upload.Some? &&
          match d.upload.value.state
          case StateUnknown => false
          case Uploading => req.force || now > d.upload.value.startedAt + cfg.maxUploadDuration + 120
          case Uploaded => if invalid then req.hash == "" || req.hash != d.upload.value.hash else req.force
          case Purged => true)
  }

  lemma YesMeansWanted(cfg: Config, obj: Object, req: Request, lookup: Lookup, now: int)
    ensures
      var outcome := ShouldInitiate(cfg, obj, req, lookup, now).1;
      outcome.Answer? && outcome.should <==> |req.buildId| > 2 && Wanted(cfg, obj, req, lookup, now)
  {
  }

  /** An id is issued exactly to a request with a hash and a size within the limit whose upload is wanted. */
  lemma IssuedMeansWanted(cfg: Config, obj: Object, req: Request, size: int, lookup: Lookup, now: int, id: UploadId,
      signed: bool)
    ensures
      var (after, outcome) := Initiate(cfg, obj, req, size, lookup, now, id, signed);
      && (outcome.Issued? <==>
            && req.hash != "" && size != 0 && |req.buildId| > 2 && Wanted(cfg, obj, req, lookup, now)
            && size <= cfg.maxUploadSize && (cfg.signedUpload ==> signed))
      && (outcome.Issued? ==>
            && outcome.id == id
            && after == Some(Debuginfo(req.buildId, req.typ, FromUpload, [],
                                       Some(UploadRecord(id, req.hash, Uploading, now, None)), None)))
      && (outcome == Refused(AlreadyExists) ==>
            && obj.Some? && obj.value.upload.Some? && obj.value.upload.value.state == Uploaded
            && obj.value.upload.value.hash == req.hash && after == obj)
  {
  }

  /** The reasons by which the answers are told apart. */
  lemma ReasonsGiven(cfg: Config, obj: Object, req: Request, lookup: Lookup, now: int)
    requires ShouldInitiate(cfg, obj, req, lookup, now).1.Answer?
    ensures
      var (after, answer) := ShouldInitiate(cfg, obj, req, lookup, now);
      && (answer.reason in {FirstTimeSeen, InDebuginfod} <==> obj.None?)
      && (answer.reason in {DebuginfodSource, DebuginfodInvalid} <==> obj.Some? && obj.value.source == FromDebuginfod)
      && (answer.reason in {UploadStale, UploadInProgress, UploadInProgressButForced} <==>
            obj.Some? && obj.value.source == FromUpload && obj.value.upload.value.state == Uploading)
      && (answer.reason == WasPurged <==>
            obj.Some? && obj.value.source == FromUpload && obj.value.upload.value.state == Purged)
      && (answer.reason in {AlreadyPresent, AlreadyPresentButForced} ==>
            obj.Some? && !(obj.value.quality.Some? && obj.value.quality.value.notValidElf))
      && (answer.reason in {Invalid, Equal, NotEqual} ==>
            && obj.Some? && obj.value.quality.Some? && obj.value.quality.value.notValidElf
            && (answer.reason == Invalid <==> req.hash == "")
            && (answer.reason == Equal <==> req.hash != "" && req.hash == obj.value.upload.value.hash))
      && (answer.reason in {UploadInProgressButForced, AlreadyPresentButForced} ==> req.force)
      && (answer.reason in {InDebuginfod, UploadInProgress, AlreadyPresent, Equal, DebuginfodSource} <==>
            !answer.should)
      && (answer.reason == InDebuginfod ==>
            && lookup.Found? && lookup.servers != []
            && after == Some(Debuginfo(req.buildId, req.typ, FromDebuginfod, lookup.servers, None, None)))
      && (answer.reason != InDebuginfod ==> after == obj)
  {
  }

  /** The bytes of an upload are taken for the stored id only; finishing it changes its state and end. */
  lemma StoredIdOnly(cfg: Config, obj: Object, buildId: string, id: UploadId, now: int)
    ensures Upload(cfg, obj, buildId, id) == Done <==>
      && !cfg.signedUpload && |buildId| > 2 && obj.Some? && obj.value.upload.Some? && obj.value.upload.value.id == id
    ensures Finish(obj, buildId, id, now).1 == Done <==>
      |buildId| > 2 && obj.Some? && obj.value.upload.Some? && obj.value.upload.value.id == id
    ensures Finish(obj, buildId, id, now).1 != Done ==> Finish(obj, buildId, id, now).0 == obj
    ensures Finish(obj, buildId, id, now).1 == Done ==>
      var (d, after) := (obj.value, Finish(obj, buildId, id, now).0);
      var u := d.upload.value;
      after == Some(Debuginfo(d.buildId, d.typ, d.source, d.servers,
                              Some(UploadRecord(id, u.hash, Uploaded, u.startedAt, Some(now))), d.quality))
  {
  }

  /** Purging leads to an upload with the next request, and quality alone changes by setting it. */
  lemma PurgedIsWanted(cfg: Config, d: Debuginfo, req: Request, lookup: Lookup, now: int, quality: Option<Quality>)
    requires d.source == FromUpload && d.upload.Some? && |req.buildId| > 2
    ensures ShouldInitiate(cfg, Purge(Some(d)), req, lookup, now).1 == Answer(true, WasPurged)
    ensures SetQuality(Some(d), quality)
         == Some(Debuginfo(d.buildId, d.typ, d.source, d.servers, d.upload, quality))
    ensures SetQuality(None, quality) == None && Purge(None) == None
  {
  }

  ghost predicate InvalidatedOrPurged(c: Call) {
    c == CallPurge || (c.CallSetQuality? && c.quality.Some? && c.quality.value.notValidElf)
  }

  /** The upload begun at the given time is under way or finished, and nothing says it is of no use. */
  ghost predicate InForce(obj: Object, since: int) {
    && obj.Some? && obj.value.source == FromUpload && !MarkedInvalid(obj.value) && obj.value.upload.Some?
    && obj.value.upload.value.startedAt >= since
    && obj.value.upload.value.state in {Uploading, Uploaded}
  }

  lemma StaysInForce(cfg: Config, obj: Object, since: int, c: Call)
    requires InForce(obj, since) && !InvalidatedOrPurged(c) && (c.CallInitiate? ==> c.now >= since)
    ensures InForce(Step(cfg, obj, c).0, since)
  {
  }

  /** Between an issue and a later call that neither invalidates nor purges in between, an upload is in force. */
  lemma {:induction false} InForceSince(cfg: Config, calls: seq<Call>, i: nat, j: nat)
    requires ProperRun(calls) && i < j <= |calls| && IssuesAt(cfg, calls, i)
    requires forall k :: i < k < j ==> !InvalidatedOrPurged(calls[k])
    ensures calls[i].CallInitiate? && InForce(After(cfg, calls[..j]), calls[i].now)
    decreases j
  {
    InitiateIssues(cfg, After(cfg, calls[..i]), calls[i]);
    if j == i + 1 {
      assert calls[..j][..i] == calls[..i];
    } else {
      InForceSince(cfg, calls, i, j - 1);
      assert calls[..j][..j - 1] == calls[..j - 1];
      StaysInForce(cfg, After(cfg, calls[..j - 1]), calls[i].now, calls[j - 1]);
    }
  }

  /** An upload begun at the given time or later is still under way, and stale. */
  ghost predicate StaleSince(cfg: Config, obj: Object, since: int, now: int) {
    && obj.Some? && obj.value.upload.Some? && obj.value.upload.value.state == Uploading
    && since <= obj.value.upload.value.startedAt < now - cfg.maxUploadDuration - 120
  }

  /**
   Without force, a second id is issued in one run only if the upload under way by then is unfinished and
   stale, or a debuginfo was marked invalid or purged in between.
   */
  lemma {:induction false} NoSecondIdWithoutReason(cfg: Config, calls: seq<Call>, i: nat, j: nat)
    requires ProperRun(calls) && i < j < |calls| && IssuesAt(cfg, calls, i) && IssuesAt(cfg, calls, j)
    ensures calls[i].CallInitiate? && calls[j].CallInitiate?
    ensures
      || calls[j].req.force
      || StaleSince(cfg, After(cfg, calls[..j]), calls[i].now, calls[j].now)
      || exists k :: i < k < j && InvalidatedOrPurged(calls[k])
  {
    var c := calls[j];
    InitiateIssues(cfg, After(cfg, calls[..i]), calls[i]);
    InitiateIssues(cfg, After(cfg, calls[..j]), c);
    if !exists k :: i < k < j && InvalidatedOrPurged(calls[k]) {
      InForceSince(cfg, calls, i, j);
      YesMeansWanted(cfg, After(cfg, calls[..j]), c.req, c.lookup, c.now);
    }
  }

  /**
   Without force no id is issued while an upload is fresh: from one id to the next pass more than the
   upload duration and two minutes, unless a debuginfo was marked invalid or purged in between.
   */
  lemma {:induction false} NoIdWhileFresh(cfg: Config, calls: seq<Call>, i: nat, j: nat)
    requires ProperRun(calls) && i < j < |calls| && IssuesAt(cfg, calls, i) && IssuesAt(cfg, calls, j)
    requires forall k :: i < k < j ==> !InvalidatedOrPurged(calls[k])
    requires !Forced(calls[j])
    ensures calls[i].CallInitiate? && calls[j].CallInitiate?
    ensures calls[j].now > calls[i].now + cfg.maxUploadDuration + 120
  {
    NoSecondIdWithoutReason(cfg, calls, i, j);
  }

  /** The upload begun at the given time has not ended. */
  ghost predicate UnderWay(obj: Object, started: int) {
    && obj.Some? && obj.value.source == FromUpload && obj.value.upload.Some?
    && obj.value.upload.value.state == Uploading && obj.value.upload.value.startedAt == started
  }

  lemma StaysUnderWay(cfg: Config, obj: Object, started: int, c: Call)
    requires UnderWay(obj, started) && c != CallPurge
    requires !Step(cfg, obj, c).1.Issued? && !(c.CallFinish? && Step(cfg, obj, c).1 == Done)
    ensures UnderWay(Step(cfg, obj, c).0, started)
  {
  }

  /** No call from the one behind n on issues an id, purges, or finishes the upload. */
  ghost predicate LeftAlone(cfg: Config, calls: seq<Call>, n: nat) {
    forall k :: n < k < |calls| ==>
      && !IssuesAt(cfg, calls, k) && calls[k] != CallPurge
      && !(calls[k].CallFinish? && OutcomeAt(cfg, calls, k) == Done)
  }

  lemma {:induction false} LeftAloneBefore(cfg: Config, calls: seq<Call>, n: nat)
    requires LeftAlone(cfg, calls, n) && calls != []
    ensures LeftAlone(cfg, calls[..|calls| - 1], n)
  {
    var init := calls[..|calls| - 1];
    hide After, Step;
    forall k | n < k < |init|
      ensures IssuesAt(cfg, init, k) == IssuesAt(cfg, calls, k)
      ensures OutcomeAt(cfg, init, k) == OutcomeAt(cfg, calls, k)
    {
      assert init[..k] == calls[..k];
    }
  }

  lemma {:induction false} LastLeavesAlone(cfg: Config, calls: seq<Call>, n: nat)
    requires LeftAlone(cfg, calls, n) && n < |calls| - 1
    ensures
      var (obj, c) := (After(cfg, calls[..|calls| - 1]), calls[|calls| - 1]);
      && After(cfg, calls) == Step(cfg, obj, c).0
      && !Step(cfg, obj, c).1.Issued? && c != CallPurge && !(c.CallFinish? && Step(cfg, obj, c).1 == Done)
  {
    hide Step;
    assert !IssuesAt(cfg, calls, |calls| - 1);
  }

  lemma {:induction false} UnderWaySince(cfg: Config, calls: seq<Call>, n: nat)
    requires n < |calls| && IssuesAt(cfg, calls, n) && LeftAlone(cfg, calls, n)
    ensures calls[n].CallInitiate? && UnderWay(After(cfg, calls), calls[n].now)
    decreases |calls|
  {
    var last := |calls| - 1;
    var init := calls[..last];
    if n == last {
      InitiateIssues(cfg, After(cfg, init), calls[n]);
    } else {
      hide Step, UnderWay, LeftAlone;
      assert init[..n] == calls[..n];
      LeftAloneBefore(cfg, calls, n);
      UnderWaySince(cfg, init, n);
      LastLeavesAlone(cfg, calls, n);
      hide After;
      StaysUnderWay(cfg, After(cfg, init), calls[n].now, calls[last]);
    }
  }

  /**
   An upload that was neither finished nor purged may be retried without force exactly from then on: more
   than the upload duration and two minutes after its id was issued.
   */
  lemma {:induction false} RetriedOnceStale(cfg: Config, calls: seq<Call>, n: nat, req: Request, lookup: Lookup,
      now: int)
    requires n < |calls| && IssuesAt(cfg, calls, n) && |req.buildId| > 2 && !req.force
    requires LeftAlone(cfg, calls, n)
    ensures calls[n].CallInitiate?
    ensures ShouldInitiate(cfg, After(cfg, calls), req, lookup, now).1
         == if now > calls[n].now + cfg.maxUploadDuration + 120 then Answer(true, UploadStale)
            else Answer(false, UploadInProgress)
  {
    UnderWaySince(cfg, calls, n);
  }

  /** The upload is finished and not marked invalid. */
  ghost predicate FinishedValid(obj: Object) {
    && obj.Some? && obj.value.source == FromUpload && !MarkedInvalid(obj.value)
    && obj.value.upload.Some? && obj.value.upload.value.state == Uploaded
  }

  ghost predicate Forced(c: Call) {
    c.CallInitiate? && c.req.force
  }

  lemma FinishedStep(cfg: Config, obj: Object, c: Call)
    requires FinishedValid(obj) && !Forced(c)
    ensures !Step(cfg, obj, c).1.Issued?
    ensures !InvalidatedOrPurged(c) ==> FinishedValid(Step(cfg, obj, c).0)
  {
  }

  /**
   Once an upload of a debuginfo not marked invalid is finished, it stays so and no id is issued without
   force, however much time passes, until the debuginfo is marked invalid or purged.
   */
  lemma {:induction false} NoIdAfterFinish(cfg: Config, calls: seq<Call>, f: nat, j: nat)
    requires f < j < |calls| && calls[f].CallFinish? && OutcomeAt(cfg, calls, f) == Done
    requires !MarkedInvalid(After(cfg, calls[..f]).value)
    requires forall k :: f < k < j ==> !InvalidatedOrPurged(calls[k]) && !Forced(calls[k])
    ensures FinishedValid(After(cfg, calls[..j]))
    ensures !Forced(calls[j]) ==> !IssuesAt(cfg, calls, j)
    decreases j
  {
    var init := calls[..j];
    if j == f + 1 {
      RunConsistent(cfg, calls[..f]);
      assert init[..f] == calls[..f];
    } else {
      NoIdAfterFinish(cfg, calls, f, j - 1);
      assert init[..j - 1] == calls[..j - 1];
      FinishedStep(cfg, After(cfg, calls[..j - 1]), calls[j - 1]);
    }
    if !Forced(calls[j]) {
      FinishedStep(cfg, After(cfg, init), calls[j]);
    }
  }

  // What a yes is worth.

  /**
   A yes for a hash is kept: initiating, uploading and finishing with the same request, alone, within the
   size limit and with the same lookup, all succeed, and leave the object uploaded with that hash, so
   that nobody is asked to upload it again.
   */
  lemma YesLeadsToUploaded(cfg: Config, obj: Object, req: Request, lookup: Lookup, asked: int,
      started: int, finished: int, size: int, id: UploadId)
    requires ShouldInitiate(cfg, obj, req, lookup, asked).1.Answer?
      && ShouldInitiate(cfg, obj, req, lookup, asked).1.should
    requires req.hash != "" && size != 0 && size <= cfg.maxUploadSize && asked <= started
    ensures
      var obj0 := ShouldInitiate(cfg, obj, req, lookup, asked).0;
      var (obj1, issued) := Initiate(cfg, obj0, req, size, lookup, started, id, true);
      var (obj2, done) := Finish(obj1, req.buildId, id, finished);
      && issued == Issued(id)
      && (!cfg.signedUpload ==> Upload(cfg, obj1, req.buildId, id) == Done)
      && done == Done
      && obj2 == Some(Debuginfo(req.buildId, req.typ, FromUpload, [],
                                Some(UploadRecord(id, req.hash, Uploaded, started, Some(finished))), None))
      && forall again: Request, now :: !again.force && !ShortId(again.buildId) ==>
           ShouldInitiate(cfg, obj2, again, lookup, now).1 == Answer(false, AlreadyPresent)
  {
  }

  /** A yes given without a hash is kept for exactly the hashes that are not known to be invalid already. */
  lemma YesWithoutHash(cfg: Config, obj: Object, req: Request, lookup: Lookup, now: int,
      hash: string, size: int, id: UploadId)
    requires req.hash == "" && hash != "" && size != 0 && size <= cfg.maxUploadSize
    requires ShouldInitiate(cfg, obj, req, lookup, now).1.Answer? && ShouldInitiate(cfg, obj, req, lookup, now).1.should
    ensures Initiate(cfg, obj, req.(hash := hash), size, lookup, now, id, true).1 ==
            if obj.Some? && obj.value.source == FromUpload && obj.value.upload.value.state == Uploaded
               && MarkedInvalid(obj.value) && obj.value.upload.value.hash == hash
            then Refused(AlreadyExists) else Issued(id)
  {
  }
}
