/**
 * The agent's replica of its twin. The hub holds a history of desired-property
 * documents; the agent applies a patch only when its version is contiguous and
 * refetches the whole twin otherwise.
 */
module TwinSync {
  import opened Wrappers
  import opened JsonEx

  /** A twin collection wraps a JSON object. */
  type Document = j: Json | j.Obj? witness Obj(map[])

  datatype Twin = Twin(desired: Document, reported: Document)

  datatype ConfigError = ConfigEmpty | ConfigFormat | InvalidSchemaVersion | PatchRejected

  datatype ConfigInfo<C> = ConfigInfo(version: int, config: Result<C, ConfigError>)

  /** Deserialisation followed by the schema version check. */
  type Parser<!C> = Json -> Result<C, ConfigError>

  datatype Replica<C> = Replica(
    desired: Option<Document>,
    reported: Option<Document>,
    info: Option<ConfigInfo<C>>)

  const VERSION := "$version"
  const METADATA := "$metadata"

  function Version(doc: Json): int {
    match At(doc, VERSION)
    case Some(Int(n)) => n
    case _ => 0
  }

  /** The number of properties that are not metadata. */
  function Count(doc: Document): nat {
    |doc.props.Keys - {METADATA, VERSION}|
  }

  function LoadConfig<C>(parse: Parser<C>, doc: Document): Result<C, ConfigError> {
    if Count(doc) == 0 then Failure(ConfigEmpty) else parse(doc)
  }

  /** The config info is left alone for a version below -1, which its constructor refuses. */
  function Record<C>(r: Replica<C>, version: int, config: Result<C, ConfigError>): Replica<C> {
    if version < -1 then r else r.(info := Some(ConfigInfo(version, config)))
  }

  /** `doc` becomes the desired properties, and its config or its error is recorded. */
  function Installed<C>(parse: Parser<C>, r: Replica<C>, doc: Document): Replica<C> {
    Record(r.(desired := Some(doc)), Version(doc), LoadConfig(parse, doc))
  }

  function Stored<C>(parse: Parser<C>, r: Replica<C>, twin: Twin): Replica<C> {
    Installed(parse, r.(reported := Some(twin.reported)), twin.desired)
  }

  function Patched<C>(parse: Parser<C>, r: Replica<C>, desired: Document, patch: Document): Replica<C> {
    if Mergeable(desired, patch) then
      Installed(parse, r, Merged(desired, patch, true))
    else
      Record(r, Version(desired), Failure(PatchRejected))
  }

  predicate Contiguous(desired: Option<Document>, patch: Document) {
    desired.Some? && Version(desired.value) + 1 == Version(patch)
  }

  /** The replica after one update notification; `fetched` is what a refetch would return. */
  function Updated<C>(parse: Parser<C>, r: Replica<C>, patch: Document, fetched: Option<Twin>): Replica<C> {
    if Contiguous(r.desired, patch) then Patched(parse, r, r.desired.value, patch)
    else if fetched.Some? then Stored(parse, r, fetched.value)
    else r
  }

  /** The connection object; every method below runs while `twinLock` is held. */
  class EdgeAgentConnection<C> {
    const parse: Parser<C>
    var desiredProperties: Option<Document>
    var reportedProperties: Option<Document>
    var deploymentConfigInfo: Option<ConfigInfo<C>>

    ghost function View(): Replica<C>
      reads this
    {
      Replica(desiredProperties, reportedProperties, deploymentConfigInfo)
    }

    constructor (parse: Parser<C>)
      ensures this.parse == parse && View() == Replica(None, None, None)
    {
      this.parse := parse;
      desiredProperties, reportedProperties, deploymentConfigInfo := None, None, None;
    }

    method OnDesiredPropertiesUpdated(patch: Document, fetched: Option<Twin>)
      modifies this
      ensures View() == Updated(parse, old(View()), patch, fetched)
    {
      if desiredProperties.Some? && Version(desiredProperties.value) + 1 == Version(patch) {
        ApplyPatch(desiredProperties.value, patch);
      } else {
        RefreshTwin(fetched);
      }
    }

    method RefreshTwin(fetched: Option<Twin>)
      modifies this
      ensures View() == if fetched.Some? then Stored(parse, old(View()), fetched.value) else old(View())
    {
      if fetched.Some? {
        reportedProperties := Some(fetched.value.reported);
        Install(fetched.value.desired);
      }
    }

    method ApplyPatch(desired: Document, patch: Document)
      modifies this
      ensures View() == Patched(parse, old(View()), desired, patch)
    {
      var merged := Merge(desired, patch, true);
      if merged.Failure? {
        SetConfigInfo(Version(desired), Failure(PatchRejected));
        return;
      }
      Install(merged.value);
    }

    method Install(doc: Document)
      modifies this
      ensures View() == Installed(parse, old(View()), doc)
    {
      desiredProperties := Some(doc);
      var error := UpdateDeploymentConfig(doc);
      if error.Some? {
        SetConfigInfo(Version(doc), Failure(error.value));
      }
    }

    /** Reports the error that the caller records; only a parsed config is recorded here. */
    method UpdateDeploymentConfig(desired: Document) returns (error: Option<ConfigError>)
      modifies this
      ensures match LoadConfig(parse, desired)
              case Failure(e) => error == Some(e) && View() == old(View())
              case Success(c) => error == None && View() == Record(old(View()), Version(desired), Success(c))
    {
      if Count(desired) == 0 {
        return Some(ConfigEmpty);
      }
      match parse(desired)
      case Failure(e) =>
        return Some(e);
      case Success(config) =>
        SetConfigInfo(Version(desired), Success(config));
        return None;
    }

    method SetConfigInfo(version: int, config: Result<C, ConfigError>)
      modifies this
      ensures View() == Record(old(View()), version, config)
    {
      if version >= -1 {
        deploymentConfigInfo := Some(ConfigInfo(version, config));
      }
    }
  }

  // -------------------------------------------------------------- the hub

  /** `patches[i]` takes `docs[i]` to `docs[i + 1]`. */
  datatype Hub = Hub(docs: seq<Document>, patches: seq<Document>)

  ghost predicate HubValid(h: Hub) {
    && |h.docs| == |h.patches| + 1
    && 0 <= Version(h.docs[0])
    && (forall i :: 0 <= i < |h.docs| ==> Version(h.docs[i]) == Version(h.docs[0]) + i)
    && (forall i :: 0 <= i < |h.patches| ==>
          && Version(h.patches[i]) == Version(h.docs[0]) + i + 1
          && h.docs[i + 1] == Merged(h.docs[i], h.patches[i], true))
  }

  function Current(h: Hub): Document
    requires h.docs != []
  {
    h.docs[|h.docs| - 1]
  }

  /** The hub stamps a change with the next version and merges it into its document. */
  function HubUpdated(h: Hub, change: Document): Hub
    requires h.docs != []
  {
    var patch: Document := Obj(change.props[VERSION := Int(Version(Current(h)) + 1)]);
    Hub(h.docs + [Merged(Current(h), patch, true)], h.patches + [patch])
  }

  // ------------------------------------------------------ runs of the system

  /** A refresh holds the lock from the request until the reply is stored. */
  datatype Phase = Idle | Fetching | Fetched(twin: Twin)

  datatype World<C> = World(hub: Hub, replica: Replica<C>, phase: Phase)

  /**
   * What can happen next. The network may deliver any patch the hub ever sent,
   * any number of times and in any order, or never; a fetch may fail; the hub
   * may change at any point of a refresh.
   */
  datatype Event =
    | HubChange(change: Document)
    | Deliver(patch: nat)
    | RefreshTimer
    | FetchOk(reported: Document)
    | FetchFailed
    | StoreReply

  /** An event that is not possible in `w` leaves it unchanged. */
  function Step<C>(parse: Parser<C>, w: World<C>, e: Event): World<C>
    requires w.hub.docs != []
  {
    match e
    case HubChange(change) => w.(hub := HubUpdated(w.hub, change))
    case Deliver(i) =>
      if !w.phase.Idle? || i >= |w.hub.patches| then w
      else
        var patch := w.hub.patches[i];
        if Contiguous(w.replica.desired, patch)
        then w.(replica := Patched(parse, w.replica, w.replica.desired.value, patch))
        else w.(phase := Fetching)
    case RefreshTimer => if w.phase.Idle? then w.(phase := Fetching) else w
    case FetchOk(reported) =>
      if w.phase.Fetching? then w.(phase := Fetched(Twin(Current(w.hub), reported))) else w
    case FetchFailed => if w.phase.Fetching? then w.(phase := Idle) else w
    case StoreReply =>
      if w.phase.Fetched? then w.(replica := Stored(parse, w.replica, w.phase.twin), phase := Idle) else w
  }

  ghost function Run<C>(parse: Parser<C>, w: World<C>, events: seq<Event>): (r: World<C>)
    requires w.hub.docs != []
    ensures r.hub.docs != []
    decreases |events|
  {
    if events == [] then w else Run(parse, Step(parse, w, events[0]), events[1..])
  }

  ghost predicate Initial<C>(w: World<C>) {
    && HubValid(w.hub)
    && w.replica == Replica(None, None, None)
    && w.phase == Idle
  }

  /** `d` is the document the hub held at the version that `d` carries. */
  ghost predicate IsHubDocument(h: Hub, d: Document)
    requires HubValid(h)
  {
    var i := Version(d) - Version(h.docs[0]);
    0 <= i < |h.docs| && d == h.docs[i]
  }

  /** The replica is absent or exact, and the config info speaks of the same version. */
  ghost predicate Consistent<C>(w: World<C>) {
    && HubValid(w.hub)
    && (w.replica.info.Some? <==> w.replica.desired.Some?)
    && (w.replica.desired.Some? ==>
          && IsHubDocument(w.hub, w.replica.desired.value)
          && w.replica.info.value.version == Version(w.replica.desired.value))
    && (w.phase.Fetched? ==>
          && IsHubDocument(w.hub, w.phase.twin.desired)
          && NotOlder(w.replica.desired, Some(w.phase.twin.desired)))
  }

  ghost predicate NotOlder(before: Option<Document>, after: Option<Document>) {
    before.Some? ==> after.Some? && Version(before.value) <= Version(after.value)
  }

  lemma HubChangeKeepsHistory(h: Hub, change: Document)
    requires HubValid(h)
    ensures HubValid(HubUpdated(h, change))
    ensures h.docs <= HubUpdated(h, change).docs
  {
    var patch: Document := Obj(change.props[VERSION := Int(Version(Current(h)) + 1)]);
    var doc := Merged(Current(h), patch, true);
    MergedProperty(Current(h), patch, true, VERSION);
    assert At(doc, VERSION) == Some(Int(Version(Current(h)) + 1));
    var h' := HubUpdated(h, change);
    forall i | 0 <= i < |h'.docs|
      ensures Version(h'.docs[i]) == Version(h'.docs[0]) + i
    {
      if i == |h.docs| {
        assert Version(h.docs[i - 1]) == Version(h.docs[0]) + i - 1;
      }
    }
  }

  lemma InstallKeepsConsistent<C>(parse: Parser<C>, w: World<C>, doc: Document)
    requires Consistent(w) && !w.phase.Fetched?
    requires IsHubDocument(w.hub, doc)
    ensures Consistent(w.(replica := Installed(parse, w.replica, doc)))
  {
  }

  lemma NextPatchGivesHubDocument(h: Hub, i: nat, d: Document)
    requires HubValid(h) && i < |h.patches|
    requires IsHubDocument(h, d) && Version(d) + 1 == Version(h.patches[i])
    ensures Merged(d, h.patches[i], true) == h.docs[i + 1]
    ensures IsHubDocument(h, h.docs[i + 1]) && Version(h.docs[i + 1]) == Version(d) + 1
  {
    assert d == h.docs[i];
    assert Version(h.docs[i + 1]) == Version(h.docs[0]) + i + 1;
  }

  lemma HubChangeKeepsConsistent<C>(w: World<C>, change: Document)
    requires Consistent(w)
    ensures Consistent(w.(hub := HubUpdated(w.hub, change)))
  {
    HubChangeKeepsHistory(w.hub, change);
  }

  lemma DeliverKeepsConsistent<C>(parse: Parser<C>, w: World<C>, i: nat)
    requires Consistent(w) && w.phase.Idle? && i < |w.hub.patches|
    requires Contiguous(w.replica.desired, w.hub.patches[i])
    ensures var r := Patched(parse, w.replica, w.replica.desired.value, w.hub.patches[i]);
            Consistent(w.(replica := r)) && NotOlder(w.replica.desired, r.desired)
  {
    NextPatchGivesHubDocument(w.hub, i, w.replica.desired.value);
    InstallKeepsConsistent(parse, w, w.hub.docs[i + 1]);
  }

  lemma StoreKeepsConsistent<C>(parse: Parser<C>, w: World<C>)
    requires Consistent(w) && w.phase.Fetched?
    ensures var r := Stored(parse, w.replica, w.phase.twin);
            Consistent(w.(replica := r, phase := Idle)) && NotOlder(w.replica.desired, r.desired)
  {
    var w' := w.(replica := w.replica.(reported := Some(w.phase.twin.reported)), phase := Idle);
    InstallKeepsConsistent(parse, w', w.phase.twin.desired);
  }

  lemma StepKeepsConsistent<C>(parse: Parser<C>, w: World<C>, e: Event)
    requires Consistent(w)
    ensures Consistent(Step(parse, w, e))
    ensures NotOlder(w.replica.desired, Step(parse, w, e).replica.desired)
  {
    match e
    case HubChange(change) =>
      HubChangeKeepsConsistent(w, change);
    case Deliver(i) =>
      if w.phase.Idle? && i < |w.hub.patches| && Contiguous(w.replica.desired, w.hub.patches[i]) {
        DeliverKeepsConsistent(parse, w, i);
      }
    case StoreReply =>
      if w.phase.Fetched? {
        StoreKeepsConsistent(parse, w);
      }
    case _ =>
  }

  /**
   * Over every run the replica is absent or exactly the hub's document at the
   * replica's version, the config info carries that version, and the version
   * never goes back.
   */
  lemma {:induction false} ReplicaIsSafe<C>(parse: Parser<C>, w: World<C>, events: seq<Event>)
    requires Consistent(w)
    ensures Consistent(Run(parse, w, events))
    ensures NotOlder(w.replica.desired, Run(parse, w, events).replica.desired)
    decreases |events|
  {
    if events != [] {
      StepKeepsConsistent(parse, w, events[0]);
      ReplicaIsSafe(parse, Step(parse, w, events[0]), events[1..]);
    }
  }

  /** From the start of the agent: what every later moment of every run looks like. */
  lemma ReplicaIsSafeFromStart<C>(parse: Parser<C>, w: World<C>, events: seq<Event>, later: seq<Event>)
    requires Initial(w)
    ensures var w1 := Run(parse, w, events);
            var w2 := Run(parse, w1, later);
            && Consistent(w1) && Consistent(w2)
            && NotOlder(w1.replica.desired, w2.replica.desired)
  {
    ReplicaIsSafe(parse, w, events);
    ReplicaIsSafe(parse, Run(parse, w, events), later);
  }

  // ------------------------------------------------------- what the info speaks of

  /** The properties besides the two that the hub adds. */
  ghost predicate HasProperties(d: Document) {
    exists k <- d.props :: k != "$metadata" && k != "$version"
  }

  lemma CountIsZeroIff(d: Document)
    ensures Count(d) == 0 <==> !HasProperties(d)
  {
    if k :| k in d.props && k != METADATA && k != VERSION {
      assert k in d.props.Keys - {METADATA, VERSION};
    } else {
      assert d.props.Keys - {METADATA, VERSION} == {};
    }
  }

  /** The event delivers the patch that follows the replica's document. */
  ghost predicate DeliversNext<C>(w: World<C>, e: Event) {
    && e.Deliver? && w.phase.Idle? && e.patch < |w.hub.patches| && w.replica.desired.Some?
    && Version(w.hub.patches[e.patch]) == Version(w.replica.desired.value) + 1
  }

  /** The event brings a new document. */
  ghost predicate Brings<C>(w: World<C>, e: Event) {
    if e.StoreReply? then w.phase.Fetched?
    else DeliversNext(w, e) && Mergeable(w.replica.desired.value, w.hub.patches[e.patch])
  }

  ghost predicate Rejects<C>(w: World<C>, e: Event) {
    DeliversNext(w, e) && !Mergeable(w.replica.desired.value, w.hub.patches[e.patch])
  }

  /**
   * What an observer of the events remembers: whether a patch was rejected since
   * the last document came, the reported properties of the reply under way, and
   * those of the last reply that was stored.
   */
  datatype Memory = Memory(rejected: bool, reply: Option<Document>, reported: Option<Document>)

  ghost function Remembered<C>(w: World<C>, e: Event, m: Memory): Memory {
    Memory(
      Rejects(w, e) || (m.rejected && !Brings(w, e)),
      if e.FetchOk? && w.phase.Fetching? then Some(e.reported) else m.reply,
      if e.StoreReply? && w.phase.Fetched? then m.reply else m.reported)
  }

  ghost function MemoryOf<C>(parse: Parser<C>, w: World<C>, events: seq<Event>, m: Memory): Memory
    requires w.hub.docs != []
    decreases |events|
  {
    if events == [] then m else MemoryOf(parse, Step(parse, w, events[0]), events[1..], Remembered(w, events[0], m))
  }

  /**
   * The info holds the config that the document itself parses to, or the error
   * of an empty document, unless a patch was rejected since the document came.
   */
  ghost predicate InfoIsOf<C>(parse: Parser<C>, info: Option<ConfigInfo<C>>, d: Document, rejected: bool) {
    && info.Some? && info.value.version == Version(d)
    && info.value.config ==
       if rejected then Failure(PatchRejected)
       else if HasProperties(d) then parse(d)
       else Failure(ConfigEmpty)
  }

  ghost predicate Agrees<C>(parse: Parser<C>, w: World<C>, m: Memory) {
    && (w.replica.desired.Some? ==> InfoIsOf(parse, w.replica.info, w.replica.desired.value, m.rejected))
    && w.replica.reported == m.reported
    && (w.phase.Fetched? ==> m.reply == Some(w.phase.twin.reported))
  }

  lemma StepAgrees<C>(parse: Parser<C>, w: World<C>, e: Event, m: Memory)
    requires Consistent(w) && Agrees(parse, w, m)
    ensures Agrees(parse, Step(parse, w, e), Remembered(w, e, m))
  {
    if e.StoreReply? && w.phase.Fetched? {
      CountIsZeroIff(w.phase.twin.desired);
    } else if Brings(w, e) {
      NextPatchGivesHubDocument(w.hub, e.patch, w.replica.desired.value);
      CountIsZeroIff(w.hub.docs[e.patch + 1]);
    }
  }

  lemma {:induction false} RunAgrees<C>(parse: Parser<C>, w: World<C>, events: seq<Event>, m: Memory)
    requires Consistent(w) && Agrees(parse, w, m)
    ensures Agrees(parse, Run(parse, w, events), MemoryOf(parse, w, events, m))
    decreases |events|
  {
    if events != [] {
      StepAgrees(parse, w, events[0], m);
      StepKeepsConsistent(parse, w, events[0]);
      RunAgrees(parse, Step(parse, w, events[0]), events[1..], Remembered(w, events[0], m));
    }
  }

  /**
   * Over every run from the start: the config info is that of the document the
   * replica holds, and the reported properties are those of the last reply.
   */
  lemma InfoSpeaksOfReplica<C>(parse: Parser<C>, w: World<C>, events: seq<Event>)
    requires Initial(w)
    ensures var r := Run(parse, w, events).replica;
            var m := MemoryOf(parse, w, events, Memory(false, None, None));
            && (r.desired.Some? ==> InfoIsOf(parse, r.info, r.desired.value, m.rejected))
            && (r.desired == None ==> r.info == None)
            && r.reported == m.reported
  {
    RunAgrees(parse, w, events, Memory(false, None, None));
    ReplicaIsSafe(parse, w, events);
  }

  /** The object's handler is the delivery of a patch followed, if needed, by its refetch. */
  lemma UpdatedIsDeliverThenFetch<C>(parse: Parser<C>, w: World<C>, i: nat, reported: Document)
    requires Consistent(w) && w.phase == Idle && i < |w.hub.patches|
    ensures Step(parse, Step(parse, Step(parse, w, Deliver(i)), FetchOk(reported)), StoreReply) ==
            w.(replica := Updated(parse, w.replica, w.hub.patches[i], Some(Twin(Current(w.hub), reported))))
    ensures Step(parse, Step(parse, w, Deliver(i)), FetchFailed) ==
            w.(replica := Updated(parse, w.replica, w.hub.patches[i], None))
  {
  }

  lemma NextPatchReachesCurrentIff<C>(parse: Parser<C>, r: Replica<C>, h: Hub)
    requires HubValid(h) && h.patches != [] && r.desired.Some? && IsHubDocument(h, r.desired.value)
    requires Contiguous(r.desired, h.patches[|h.patches| - 1])
    ensures var newest := h.patches[|h.patches| - 1];
            Patched(parse, r, r.desired.value, newest).desired == Some(Current(h)) <==>
              Mergeable(r.desired.value, newest)
  {
    NextPatchGivesHubDocument(h, |h.patches| - 1, r.desired.value);
  }

  /**
   * Handling the newest patch brings the replica to the hub's current document,
   * whatever was lost before, exactly when the patch merges (if it is the next
   * one) or the refetch succeeds or nothing was missing (if it is not).
   */
  lemma NewestPatchConverges<C>(parse: Parser<C>, w: World<C>, reply: Option<Twin>)
    requires Consistent(w) && w.hub.patches != []
    requires reply.Some? ==> reply.value.desired == Current(w.hub)
    ensures var newest := w.hub.patches[|w.hub.patches| - 1];
            var desired := w.replica.desired;
            Updated(parse, w.replica, newest, reply).desired == Some(Current(w.hub)) <==>
              if desired.Some? && Version(desired.value) + 1 == Version(newest) then Mergeable(desired.value, newest)
              else reply.Some? || desired == Some(Current(w.hub))
  {
    if Contiguous(w.replica.desired, w.hub.patches[|w.hub.patches| - 1]) {
      NextPatchReachesCurrentIff(parse, w.replica, w.hub);
    }
  }

  /** A refresh by the timer brings the current twin, whatever the replica held. */
  lemma RefreshReachesCurrent<C>(parse: Parser<C>, w: World<C>, reported: Document)
    requires Consistent(w) && w.phase == Idle
    ensures var r := Step(parse, Step(parse, Step(parse, w, RefreshTimer), FetchOk(reported)), StoreReply);
            && r.phase == Idle && r.hub == w.hub
            && r.replica.desired == Some(Current(w.hub)) && r.replica.reported == Some(reported)
            && InfoIsOf(parse, r.replica.info, Current(w.hub), false)
  {
    CountIsZeroIff(Current(w.hub));
    assert IsHubDocument(w.hub, Current(w.hub));
  }
}
