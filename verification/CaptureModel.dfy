/** One pass of the PacketCapture reconciler over what the API server holds
    (operator/internal/controller/packetcapture_controller.go). */
module CaptureModel {
  import opened Options
  import opened CaptureOrder
  import opened CaptureUrl
  import opened CaptureNames

  // ------------------------------------------------------------- API server --

  datatype PodPhase = PodPending | PodRunning | PodSucceeded | PodFailed | PodUnknown

  /** A pod that may be captured. `matches` says that the namespace and label selectors
      pick it; `addressed` that it has an address. */
  datatype TargetPod = TargetPod(matches: bool, phase: PodPhase, deleting: bool, node: string, addressed: bool)

  /** A capture pod: whose labels it carries, its deletion mark, what it has to say for
      itself, and the upload URL it was given. */
  datatype CapturePod = CapturePod(owner: Key, deleting: bool, phase: PodPhase, words: string, url: string)

  type Pods = map<string, CapturePod>

  datatype Spec = Spec(paused: bool, maxTargets: int, prefix: string, podNames: set<string>)

  datatype Phase = Pending | Capturing | Completed | Failed

  datatype Target = Target(key: Key, phase: Phase, message: string, capturer: string, file: string)

  datatype Ready = Unset | NoCaptureNamespace | NoWebshark | SelectorFailed
                 | Paused | Truncated | NoPods | Selected

  datatype Status = Status(targets: seq<Target>, selected: nat, capturing: nat, completed: nat, failed: nat,
                           upload: string, ready: Ready)

  /** Everything the API server keeps: the PacketCapture, the pods it may capture, and the
      pods in the operator's namespace. */
  datatype World = World(gone: bool, deleting: bool, finalizer: bool, spec: Spec, status: Status,
                         pods: map<Key, TargetPod>, captures: Pods)

  // ----------------------------------------------------------------- faults --

  datatype Trouble = Gone | Conflict | Other(text: string)

  datatype Creating = Raced(pod: CapturePod) | Rejected(why: Trouble)

  /** What goes wrong with the calls of one pass, each by what it is about, and what the
      calls outside this model answer: the upload base, and the order pods are listed in. */
  datatype Weather = Weather(update: bool, upload: Option<string>, list: bool, podGet: set<Key>,
                             observeGet: set<string>, startGet: map<string, string>,
                             create: map<string, Creating>, delete: set<string>,
                             listOwn: bool, own: seq<string>)

  predicate Fair(sky: Weather) {
    && !sky.update && !sky.list && !sky.listOwn && sky.podGet == {} && sky.observeGet == {}
    && sky.startGet == map[] && sky.create == map[] && sky.delete == {}
  }

  /** Which PacketCapture, the operator's namespace, the derived names of capture pods,
      and which texts a URL may be made of. */
  datatype Config = Config(self: Key, namespace: string, nameOf: Key -> string,
                           parses: (string, string) -> bool)

  predicate NamesDiffer(cfg: Config, a: Key, b: Key) {
    cfg.nameOf(a) == cfg.nameOf(b) ==> a == b
  }

  ghost predicate Named(cfg: Config) {
    (forall k :: cfg.nameOf(k) != "") && (forall a, b :: NamesDiffer(cfg, a, b))
  }

  // ------------------------------------------------------------- one target --

  const PausedMessage := "paused"

  function Clip(text: string): string {
    if |text| > 512 then text[..512] else text
  }

  function PhaseName(phase: PodPhase): string {
    match phase
    case PodPending => "pending"
    case PodRunning => "running"
    case PodSucceeded => "succeeded"
    case PodFailed => "failed"
    case PodUnknown => "unknown"
  }

  function StopReason(spec: Spec, pod: Option<TargetPod>): string {
    if pod.None? then "pod gone"
    else if !pod.value.phase.PodRunning? then "pod " + PhaseName(pod.value.phase)
    else if spec.paused then PausedMessage
    else ""
  }

  function ObservePod(t: Target, pod: CapturePod): Target {
    match pod.phase
    case PodRunning => t.(phase := Capturing, message := "")
    case PodSucceeded => t.(phase := Completed, message := "")
    case PodFailed => t.(phase := Failed, message := Clip(pod.words))
    case PodPending => t.(phase := Pending, message := Clip(pod.words))
    case PodUnknown => t.(phase := Pending, message := Clip(pod.words))
  }

  /** What the calls of a pass have done so far: the capture pods as they are now, and
      which targets one was made for. */
  datatype Api = Api(captures: Pods, created: set<Key>)

  datatype Ctx = Ctx(cfg: Config, spec: Spec, pods: map<Key, TargetPod>, sky: Weather, upload: string)

  datatype Begin = Skipped | Begun | Refused(why: Trouble)

  function NewFile(c: Ctx, key: Key): (file: string)
    ensures IsBytes(file)
  {
    FileNameIsAccepted(c.spec.prefix, c.cfg.self.name, key.namespace, key.name);
    FileName(c.spec.prefix, c.cfg.self.name, key.namespace, key.name)
  }

  /** Begins a capture of one pod: by what is there already, or by a pod made for it. */
  function Start(c: Ctx, api: Api, key: Key, t: Target): (Begin, Target, Api)
    requires key in c.pods
  {
    var name := c.cfg.nameOf(key);
    if name in c.sky.startGet then (Refused(Other(c.sky.startGet[name])), t, api)
    else if name in api.captures then
      if api.captures[name].deleting then (Skipped, t, api)
      else (Begun, Adopt(c.cfg, name, t, api.captures[name]), api)
    else if c.spec.paused then (Skipped, t, api)
    else if c.pods[key].node == "" then (Refused(Other("pod is not on a node")), t, api)
    else if !c.pods[key].addressed then
      (Refused(Other("pod has no address to find its network namespace by")), t, api)
    else Create(c, api, key, name, t)
  }

  function Adopt(cfg: Config, name: string, t: Target, pod: CapturePod): Target {
    ObservePod(t.(capturer := name, file := FileFrom(pod.url, cfg.parses)), pod)
  }

  function NewPod(c: Ctx, key: Key): CapturePod {
    CapturePod(c.cfg.self, false, PodPending, "", UploadURL(c.upload, NewFile(c, key)))
  }

  function Create(c: Ctx, api: Api, key: Key, name: string, t: Target): (Begin, Target, Api) {
    var u := t.(file := NewFile(c, key));
    if name in c.sky.create then
      match c.sky.create[name]
      case Rejected(why) => (Refused(why), u, api)
      case Raced(pod) => (Begun, u.(capturer := name), api.(captures := api.captures[name := pod]))
    else
      (Begun, u.(capturer := name), Api(api.captures[name := NewPod(c, key)], api.created + {key}))
  }

  predicate Watched(t: Target) {
    t.capturer != "" && !t.phase.Completed? && !t.phase.Failed?
  }

  /** Reads a target's capture pod back into it, or ends the capture. */
  function Observe(c: Ctx, api: Api, t: Target, pod: Option<TargetPod>): Option<(Target, Api)> {
    if !Watched(t) then Some((t, api))
    else if t.capturer in c.sky.observeGet then None
    else if t.capturer !in api.captures then Some((t.(phase := Completed, message := "stopped"), api))
    else
      var reason := StopReason(c.spec, pod);
      if reason == "" then Some((ObservePod(t, api.captures[t.capturer]), api))
      else if !api.captures[t.capturer].deleting && t.capturer in c.sky.delete then None
      else Some((t.(phase := Completed, message := reason), Marked(api, t.capturer)))
  }

  function Marked(api: Api, name: string): Api
    requires name in api.captures
  {
    api.(captures := api.captures[name := api.captures[name].(deleting := true)])
  }

  predicate Live(t: Target) {
    t.phase.Pending? || t.phase.Capturing?
  }

  /** The pod of a target: as listed, or fetched when a capture of it is still on. */
  function PodOf(c: Ctx, listed: seq<Key>, t: Target): Option<TargetPod> {
    if (t.key in listed || Live(t)) && t.key in c.pods then Some(c.pods[t.key]) else None
  }

  predicate PodFails(c: Ctx, listed: seq<Key>, t: Target) {
    t.key !in listed && Live(t) && t.key in c.sky.podGet
  }

  predicate Resumes(c: Ctx, t: Target, pod: Option<TargetPod>) {
    t.message == PausedMessage && !c.spec.paused && pod.Some? && pod.value.phase.PodRunning?
  }

  function Fresh(key: Key): Target {
    Target(key, Pending, "", "", "")
  }

  function Resume(c: Ctx, api: Api, t: Target): (Target, Api)
    requires t.key in c.pods
  {
    var (how, anew, after) := Start(c, api, t.key, Fresh(t.key));
    (if how.Begun? then anew else t, after)
  }

  /** One turn of the first loop: a target already on the list. */
  function KeepOne(c: Ctx, listed: seq<Key>, api: Api, t: Target): Option<(Target, Api)> {
    if PodFails(c, listed, t) then None
    else
      var pod := PodOf(c, listed, t);
      match Observe(c, api, t, pod)
      case None => None
      case Some((u, after)) =>
        if Resumes(c, u, pod) then Some(Resume(c, after, u)) else Some((u, after))
  }

  /** The first loop, over the targets on the list: how far it came, and whether it got
      to the end. */
  datatype Kept = Kept(ok: bool, targets: seq<Target>, api: Api)

  function Keep(c: Ctx, listed: seq<Key>, api: Api, ts: seq<Target>): Kept {
    if ts == [] then Kept(true, [], api)
    else
      var so := Keep(c, listed, api, ts[..|ts| - 1]);
      if !so.ok then so
      else
        match KeepOne(c, listed, so.api, ts[|ts| - 1])
        case None => Kept(false, so.targets, so.api)
        case Some((t, after)) => Kept(true, so.targets + [t], after)
  }

  // ------------------------------------------------------------ new targets --

  /** What the second loop has come to: the list, and whether it is full. */
  datatype Picked = Picked(targets: seq<Target>, api: Api, full: bool)

  function MaxTargets(spec: Spec): nat {
    if spec.maxTargets <= 0 then 10 else spec.maxTargets
  }

  function StartFailed(t: Target, why: Trouble): Target
    requires why.Other?
  {
    t.(phase := Failed, message := Clip(why.text))
  }

  /** One turn of the second loop: a pod that is not on the list, while there is room. */
  function PickOne(c: Ctx, p: Picked, key: Key): Picked
    requires key in c.pods
  {
    var (how, t, after) := Start(c, p.api, key, Fresh(key));
    match how
    case Skipped => p.(api := after)
    case Begun => p.(targets := p.targets + [t], api := after)
    case Refused(why) =>
      if why.Other? then p.(targets := p.targets + [StartFailed(t, why)], api := after) else p.(api := after)
  }

  /** The second loop, over the pods selected, up to the first there is no room for. */
  function Pick(c: Ctx, known: set<Key>, p: Picked, listed: seq<Key>): Picked
    requires forall k :: k in listed ==> k in c.pods
  {
    if listed == [] then p
    else
      var key, so := listed[|listed| - 1], Pick(c, known, p, listed[..|listed| - 1]);
      if so.full || key in known then so
      else if |so.targets| >= MaxTargets(c.spec) then so.(full := true)
      else PickOne(c, so, key)
  }

  // --------------------------------------------------------------- the pass --

  function Picks(spec: Spec, pods: map<Key, TargetPod>): set<Key> {
    set k | k in pods && pods[k].matches && (spec.podNames == {} || k.name in spec.podNames)
      && pods[k].phase.PodRunning? && !pods[k].deleting
  }

  /** What a pass may capture: the pods picked, sorted, as far as the limit goes. */
  ghost function Listed(spec: Spec, pods: map<Key, TargetPod>): (keys: seq<Key>)
    ensures forall k :: k in keys ==> k in pods
  {
    var all := Listing(Picks(spec, pods));
    assert forall k :: k in all ==> k in pods;
    if |all| > MaxTargets(spec) then all[..MaxTargets(spec)] else all
  }

  ghost predicate TooMany(spec: Spec, pods: map<Key, TargetPod>) {
    |Listing(Picks(spec, pods))| > MaxTargets(spec)
  }

  function KeysOf(ts: seq<Target>): set<Key> {
    set t | t in ts :: t.key
  }

  function CountOf(ts: seq<Target>, phase: Phase): nat {
    if ts == [] then 0
    else CountOf(ts[..|ts| - 1], phase) + (if ts[|ts| - 1].phase == phase then 1 else 0)
  }

  /** How a pass ends: with a status to write, and when to come again; with an error; or
      with nothing left to do. */
  datatype End = Write(status: Status, soon: bool) | Error | Nothing

  datatype Result = Result(world: World, created: set<Key>, end: End)

  function Condition(spec: Spec, truncated: bool, selected: nat): Ready {
    if spec.paused then Paused
    else if truncated then Truncated
    else if selected == 0 then NoPods
    else Selected
  }

  function NewStatus(c: Ctx, ts: seq<Target>, truncated: bool, selected: nat): Status {
    Status(ts, selected, CountOf(ts, Capturing), CountOf(ts, Completed), CountOf(ts, Failed), c.upload,
           Condition(c.spec, truncated, selected))
  }

  ghost function Loop(c: Ctx, w: World): Result {
    var listed := Listed(c.spec, c.pods);
    var kept := Keep(c, listed, Api(w.captures, {}), w.status.targets);
    if !kept.ok then Result(w.(captures := kept.api.captures), kept.api.created, Error)
    else
      var p := Pick(c, KeysOf(w.status.targets), Picked(kept.targets, kept.api, false), listed);
      Result(w.(captures := p.api.captures), p.api.created,
             Write(NewStatus(c, p.targets, p.full || TooMany(c.spec, c.pods), |listed|),
                   CountOf(p.targets, Capturing) > 0 || CountOf(p.targets, Pending) > 0))
  }

  /** The names of the capture pods made for this PacketCapture. */
  function OwnPods(cfg: Config, captures: Pods): set<string> {
    set n | n in captures && captures[n].owner == cfg.self
  }

  /** Deletes the pods listed, up to the first whose deletion fails. */
  function StopPods(sky: Weather, captures: Pods, names: seq<string>): (bool, Pods) {
    if names == [] then (true, captures)
    else
      var last := names[|names| - 1];
      var (ok, so) := StopPods(sky, captures, names[..|names| - 1]);
      if !ok || last in sky.delete then (false, so)
      else if last !in so then (true, so)
      else (true, so[last := so[last].(deleting := true)])
  }

  function StopAll(cfg: Config, w: World, sky: Weather): Result {
    if !w.finalizer then Result(w, {}, Nothing)
    else if cfg.namespace != "" && sky.listOwn then Result(w, {}, Error)
    else
      var (ok, captures) := if cfg.namespace == "" then (true, w.captures) else StopPods(sky, w.captures, sky.own);
      if !ok || sky.update then Result(w.(captures := captures), {}, Error)
      else Result(w.(captures := captures, finalizer := false, gone := true), {}, Nothing)
  }

  ghost function Reconcile(cfg: Config, w: World, sky: Weather): Result {
    if w.gone then Result(w, {}, Nothing)
    else if w.deleting then StopAll(cfg, w, sky)
    else if !w.finalizer && sky.update then Result(w, {}, Error)
    else
      var w := w.(finalizer := true);
      if cfg.namespace == "" then Result(w, {}, Write(w.status.(ready := NoCaptureNamespace), false))
      else if sky.upload.None? then Result(w, {}, Write(w.status.(ready := NoWebshark), false))
      else if sky.list then
        Result(w, {}, Write(w.status.(upload := sky.upload.value, ready := SelectorFailed), false))
      else Loop(Ctx(cfg, w.spec, w.pods, sky, sky.upload.value), w)
  }

  /** What the API server holds after a pass whose status write does or does not land. */
  ghost function After(cfg: Config, w: World, sky: Weather, lands: bool): World {
    var r := Reconcile(cfg, w, sky);
    if lands && r.end.Write? then r.world.(status := r.end.status) else r.world
  }
}
