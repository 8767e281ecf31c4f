/** The anti-rollback reload protocol: many threads load and verify bundles outside the
    lock, check and apply them inside it, and readers take the published snapshot at any
    moment. */
module ReloadProtocol {
  import opened Names
  import opened ZoneStore

  // ---------------------------------------------------------------------------
  // The watermark order
  // ---------------------------------------------------------------------------

  /** `(generated_at_unix, nonce)`, compared lexicographically. */
  datatype Tag = Tag(generatedAt: nat, nonce: nat)

  predicate Older(a: Tag, b: Tag) {
    a.generatedAt < b.generatedAt || (a.generatedAt == b.generatedAt && a.nonce < b.nonce)
  }

  function TagOf(b: Bundle): Tag { Tag(b.generatedAt, b.nonce) }

  function TagOfOption(b: Option<Bundle>): Option<Tag> {
    if b.Some? then Some(TagOf(b.value)) else None
  }

  /** No bundle at all comes before every bundle. */
  predicate AtMost(a: Option<Tag>, b: Option<Tag>) {
    a.None? || (b.Some? && !Older(b.value, a.value))
  }

  // ---------------------------------------------------------------------------
  // States and steps
  // ---------------------------------------------------------------------------

  /** What is fixed when the authority starts: how a snapshot is built from the static state
      and a bundle, and which bundles pass verification. */
  datatype Env = Env(build: Option<Bundle> -> Snapshot, verified: Bundle -> bool)

  /** Where one reload call is. */
  datatype Phase =
    | Idle
    | Loaded(bundle: Bundle)   // verified, lock not yet taken
    | Locked(bundle: Bundle)   // lock held, watermark not yet checked
    | Stored(bundle: Bundle)   // new snapshot published, watermark still old
    | Marked(bundle: Bundle)   // watermark advanced, lock not yet dropped

  /** What a reader took, with the tag of the bundle it was built from. */
  datatype Observation = Observation(snapshot: Snapshot, tag: Option<Tag>)

  /** `published`, `finished` and `seen` only record history: the bundle behind the current
      snapshot, the candidates of completed calls, and what each reader has observed. */
  datatype State = State(
    snapshot: Snapshot,
    watermark: Option<Tag>,
    holder: Option<nat>,
    threads: map<nat, Phase>,
    published: Option<Bundle>,
    finished: set<Tag>,
    seen: map<nat, seq<Observation>>)

  function PhaseOf(s: State, t: nat): Phase { if t in s.threads then s.threads[t] else Idle }

  function SeenBy(s: State, r: nat): seq<Observation> { if r in s.seen then s.seen[r] else [] }

  datatype Step =
    | Load(t: nat, bundle: Bundle)
    | LoadFails(t: nat)
    | Lock(t: nat)
    | Reject(t: nat)
    | Store(t: nat)
    | Mark(t: nat)
    | Unlock(t: nat)
    | Read(r: nat)

  predicate IsRollback(s: State, b: Bundle) {
    s.watermark.Some? && Older(TagOf(b), s.watermark.value)
  }

  ghost predicate Enabled(env: Env, s: State, step: Step) {
    match step
    case Load(t, b) => PhaseOf(s, t).Idle? && env.verified(b)
    case LoadFails(t) => PhaseOf(s, t).Idle?
    case Lock(t) => PhaseOf(s, t).Loaded? && s.holder.None?
    case Reject(t) => PhaseOf(s, t).Locked? && IsRollback(s, PhaseOf(s, t).bundle)
    case Store(t) => PhaseOf(s, t).Locked? && !IsRollback(s, PhaseOf(s, t).bundle)
    case Mark(t) => PhaseOf(s, t).Stored?
    case Unlock(t) => PhaseOf(s, t).Marked?
    case Read(r) => true
  }

  ghost function Apply(env: Env, s: State, step: Step): State
    requires Enabled(env, s, step)
  {
    match step
    case Load(t, b) => s.(threads := s.threads[t := Loaded(b)])
    case LoadFails(t) => s
    case Lock(t) =>
      s.(holder := Some(t), threads := s.threads[t := Locked(PhaseOf(s, t).bundle)])
    case Reject(t) =>
      s.(holder := None, threads := s.threads[t := Idle], finished := s.finished + {TagOf(PhaseOf(s, t).bundle)})
    case Store(t) =>
      var b := PhaseOf(s, t).bundle;
      s.(snapshot := env.build(Some(b)), published := Some(b), threads := s.threads[t := Stored(b)])
    case Mark(t) =>
      var b := PhaseOf(s, t).bundle;
      s.(watermark := Some(TagOf(b)), threads := s.threads[t := Marked(b)])
    case Unlock(t) =>
      s.(holder := None, threads := s.threads[t := Idle], finished := s.finished + {TagOf(PhaseOf(s, t).bundle)})
    case Read(r) =>
      s.(seen := s.seen[r := SeenBy(s, r) + [Observation(s.snapshot, TagOfOption(s.published))]])
  }

  /** The state that `Authority::new` leaves behind. */
  ghost predicate Initial(env: Env, s: State) {
    exists mesh: Option<Bundle> ::
      && (mesh.Some? ==> env.verified(mesh.value))
      && s == State(env.build(mesh), TagOfOption(mesh), None, map[], mesh, {}, map[])
  }

  /** `states` is a run of any number of threads and readers, interleaved in any way. */
  ghost predicate IsRun(env: Env, states: seq<State>, steps: seq<Step>) {
    && |states| == |steps| + 1
    && Initial(env, states[0])
    && forall i :: 0 <= i < |steps| ==>
         Enabled(env, states[i], steps[i]) && states[i + 1] == Apply(env, states[i], steps[i])
  }

  // ---------------------------------------------------------------------------
  // The invariant
  // ---------------------------------------------------------------------------

  predicate InCriticalSection(p: Phase) { p.Locked? || p.Stored? || p.Marked? }

  /** The lock excludes: the threads in the critical section are exactly its holder. */
  ghost predicate Exclusive(s: State) {
    forall t: nat :: InCriticalSection(PhaseOf(s, t)) <==> s.holder == Some(t)
  }

  /** How the published bundle and the watermark relate, by the phase of the lock holder. */
  ghost predicate InStep(s: State) {
    if s.holder.Some? && PhaseOf(s, s.holder.value).Stored? then
      s.published == Some(PhaseOf(s, s.holder.value).bundle) && AtMost(s.watermark, TagOfOption(s.published))
    else
      s.watermark == TagOfOption(s.published)
      && (s.holder.Some? && PhaseOf(s, s.holder.value).Marked? ==>
            s.watermark == Some(TagOf(PhaseOf(s, s.holder.value).bundle)))
  }

  ghost predicate AllVerified(env: Env, s: State) {
    && (s.published.Some? ==> env.verified(s.published.value))
    && (forall t: nat :: !PhaseOf(s, t).Idle? ==> env.verified(PhaseOf(s, t).bundle))
  }

  ghost predicate Ascending(seen: seq<Observation>) {
    forall i, j :: 0 <= i <= j < |seen| ==> AtMost(seen[i].tag, seen[j].tag)
  }

  ghost predicate AscendingTo(seen: seq<Observation>, tag: Option<Tag>) {
    Ascending(seen) && forall i :: 0 <= i < |seen| ==> AtMost(seen[i].tag, tag)
  }

  ghost predicate SeenSoFar(s: State) {
    forall r: nat :: AscendingTo(SeenBy(s, r), TagOfOption(s.published))
  }

  /** The observed snapshot was built from a verified bundle with the observed tag, or from
      none. */
  ghost predicate Genuine(env: Env, o: Observation) {
    exists mesh: Option<Bundle> ::
      && o.snapshot == env.build(mesh) && (mesh.Some? ==> env.verified(mesh.value))
      && o.tag == if mesh.Some? then Some(Tag(mesh.value.generatedAt, mesh.value.nonce)) else None
  }

  ghost predicate AllGenuine(env: Env, s: State) {
    forall r: nat, i :: 0 <= i < |SeenBy(s, r)| ==> Genuine(env, SeenBy(s, r)[i])
  }

  ghost predicate FinishedCovered(s: State) {
    forall tag :: tag in s.finished ==> AtMost(Some(tag), s.watermark)
  }

  ghost predicate Inv(env: Env, s: State) {
    && s.snapshot == env.build(s.published)
    && Exclusive(s)
    && InStep(s)
    && AllVerified(env, s)
    && SeenSoFar(s)
    && AllGenuine(env, s)
    && FinishedCovered(s)
  }

  lemma {:induction false} InitialInv(env: Env, s: State)
    requires Initial(env, s)
    ensures Inv(env, s)
  {
  }

  lemma {:induction false} ApplyKeepsExclusive(env: Env, s: State, step: Step)
    requires Inv(env, s) && Enabled(env, s, step)
    ensures Exclusive(Apply(env, s, step))
  {
  }

  lemma {:induction false} ApplyKeepsInStep(env: Env, s: State, step: Step)
    requires Inv(env, s) && Enabled(env, s, step)
    ensures InStep(Apply(env, s, step))
    ensures AtMost(s.watermark, Apply(env, s, step).watermark)
    ensures AtMost(TagOfOption(s.published), TagOfOption(Apply(env, s, step).published))
  {
  }

  lemma {:induction false} ApplyKeepsVerified(env: Env, s: State, step: Step)
    requires Inv(env, s) && Enabled(env, s, step)
    ensures AllVerified(env, Apply(env, s, step))
    ensures Apply(env, s, step).snapshot == env.build(Apply(env, s, step).published)
  {
    var s' := Apply(env, s, step);
    forall t: nat | !PhaseOf(s', t).Idle? ensures env.verified(PhaseOf(s', t).bundle) {
      assert PhaseOf(s', t) != PhaseOf(s, t) ==> step.Load? || PhaseOf(s', t).bundle == PhaseOf(s, t).bundle;
    }
  }

  lemma {:induction false} ApplyKeepsSeen(env: Env, s: State, step: Step)
    requires Inv(env, s) && Enabled(env, s, step)
    ensures SeenSoFar(Apply(env, s, step))
  {
    var s' := Apply(env, s, step);
    ApplyKeepsInStep(env, s, step);
    forall r: nat ensures AscendingTo(SeenBy(s', r), TagOfOption(s'.published)) {
      assert AscendingTo(SeenBy(s, r), TagOfOption(s.published));
    }
  }

  lemma {:induction false} ApplyKeepsGenuine(env: Env, s: State, step: Step)
    requires Inv(env, s) && Enabled(env, s, step)
    ensures AllGenuine(env, Apply(env, s, step))
  {
    var s' := Apply(env, s, step);
    forall r: nat, i | 0 <= i < |SeenBy(s', r)| ensures Genuine(env, SeenBy(s', r)[i]) {
      if i < |SeenBy(s, r)| {
        assert SeenBy(s', r)[i] == SeenBy(s, r)[i];
      } else {
        assert SeenBy(s', r)[i] == Observation(env.build(s.published), TagOfOption(s.published));
      }
    }
  }

  lemma {:induction false} ApplyKeepsFinished(env: Env, s: State, step: Step)
    requires Inv(env, s) && Enabled(env, s, step)
    ensures FinishedCovered(Apply(env, s, step))
  {
  }

  // ---------------------------------------------------------------------------
  // What holds over every run
  // ---------------------------------------------------------------------------

  lemma {:induction false} RunInv(env: Env, states: seq<State>, steps: seq<Step>, i: nat)
    requires IsRun(env, states, steps) && i < |states|
    ensures Inv(env, states[i])
  {
    if i == 0 {
      InitialInv(env, states[0]);
    } else {
      RunInv(env, states, steps, i - 1);
      var s, step := states[i - 1], steps[i - 1];
      ApplyKeepsExclusive(env, s, step);
      ApplyKeepsInStep(env, s, step);
      ApplyKeepsVerified(env, s, step);
      ApplyKeepsSeen(env, s, step);
      ApplyKeepsGenuine(env, s, step);
      ApplyKeepsFinished(env, s, step);
    }
  }

  /** Neither the watermark nor the tag behind the published snapshot ever goes back. */
  lemma {:induction false} TagsNeverGoBack(env: Env, states: seq<State>, steps: seq<Step>, i: nat, j: nat)
    requires IsRun(env, states, steps) && i <= j < |states|
    ensures AtMost(states[i].watermark, states[j].watermark)
    ensures AtMost(TagOfOption(states[i].published), TagOfOption(states[j].published))
    decreases j
  {
    if i < j {
      TagsNeverGoBack(env, states, steps, i, j - 1);
      RunInv(env, states, steps, j - 1);
      ApplyKeepsInStep(env, states[j - 1], steps[j - 1]);
    }
  }

  /** In numbers: over every run the watermark's generation time never falls, and while it stays
      the nonce never falls; nor does a watermark ever disappear.  The same holds of the bundle
      behind the published snapshot. */
  lemma {:induction false} WatermarkNeverDecreases(env: Env, states: seq<State>, steps: seq<Step>, i: nat, j: nat)
    requires IsRun(env, states, steps) && i <= j < |states|
    ensures states[i].watermark.Some? ==>
              && states[j].watermark.Some?
              && var v, w := states[i].watermark.value, states[j].watermark.value;
                 v.generatedAt <= w.generatedAt && (v.generatedAt == w.generatedAt ==> v.nonce <= w.nonce)
    ensures states[i].published.Some? ==>
              && states[j].published.Some?
              && var a, b := states[i].published.value, states[j].published.value;
                 a.generatedAt <= b.generatedAt && (a.generatedAt == b.generatedAt ==> a.nonce <= b.nonce)
  {
    TagsNeverGoBack(env, states, steps, i, j);
  }

  /** Outside the critical section the published snapshot is exactly the one built from a
      verified bundle that carries the watermark, or from no bundle when there is none. */
  lemma {:induction false} PublishedMatchesWatermark(env: Env, states: seq<State>, steps: seq<Step>, i: nat)
    requires IsRun(env, states, steps) && i < |states| && states[i].holder.None?
    ensures exists mesh: Option<Bundle> ::
              && states[i].snapshot == env.build(mesh)
              && (mesh.Some? <==> states[i].watermark.Some?)
              && (mesh.Some? ==> states[i].watermark == Some(Tag(mesh.value.generatedAt, mesh.value.nonce)))
              && (mesh.Some? ==> env.verified(mesh.value))
  {
    RunInv(env, states, steps, i);
  }

  /** The snapshot and the watermark change only when a bundle that is not older is applied:
      a failed load, a rejected bundle and a reader change neither. */
  lemma {:induction false} OnlyAcceptedBundlesChangeState(env: Env, states: seq<State>, steps: seq<Step>, i: nat)
    requires IsRun(env, states, steps) && i < |steps|
    ensures states[i + 1].snapshot != states[i].snapshot ==>
              && steps[i].Store?
              && var b := PhaseOf(states[i], steps[i].t).bundle;
                 && env.verified(b)
                 && (states[i].watermark.Some? ==>
                       && states[i].watermark.value.generatedAt <= b.generatedAt
                       && (states[i].watermark.value.generatedAt == b.generatedAt ==> states[i].watermark.value.nonce <= b.nonce))
                 && states[i + 1].snapshot == env.build(Some(b))
    ensures states[i + 1].watermark != states[i].watermark ==>
              && steps[i].Mark?
              && states[i + 1].watermark == TagOfOption(states[i].published)
              && states[i].snapshot == env.build(states[i].published)
  {
    RunInv(env, states, steps, i);
  }

  /** A reload is rejected exactly when the watermark's generation time is later than the
      bundle's, or the same with a higher nonce. */
  lemma {:induction false} RejectedIffOlder(env: Env, s: State, t: nat)
    requires PhaseOf(s, t).Locked?
    ensures var b := PhaseOf(s, t).bundle;
            Enabled(env, s, Reject(t)) <==>
              && s.watermark.Some?
              && (b.generatedAt < s.watermark.value.generatedAt
                  || (b.generatedAt == s.watermark.value.generatedAt && b.nonce < s.watermark.value.nonce))
    ensures Enabled(env, s, Store(t)) <==> !Enabled(env, s, Reject(t))
  {
  }

  /** What a later observation must not undercut. */
  lemma {:induction false} AscendingInNumbers(seen: seq<Observation>, k: nat, m: nat)
    requires Ascending(seen) && k <= m < |seen| && seen[k].tag.Some?
    ensures seen[m].tag.Some?
    ensures seen[k].tag.value.generatedAt <= seen[m].tag.value.generatedAt
    ensures seen[k].tag.value.generatedAt == seen[m].tag.value.generatedAt ==> seen[k].tag.value.nonce <= seen[m].tag.value.nonce
  {
    assert AtMost(seen[k].tag, seen[m].tag);
  }

  /** Every reader observes snapshots whose generation times never fall, and whose nonces never
      fall while the time stays; each was built from a verified bundle with those numbers, or
      from none. */
  lemma {:induction false} ReadersNeverGoBack(env: Env, states: seq<State>, steps: seq<Step>, i: nat, r: nat)
    requires IsRun(env, states, steps) && i < |states|
    ensures var seen := SeenBy(states[i], r);
            forall k, m :: 0 <= k <= m < |seen| && seen[k].tag.Some? ==>
              && seen[m].tag.Some?
              && seen[k].tag.value.generatedAt <= seen[m].tag.value.generatedAt
              && (seen[k].tag.value.generatedAt == seen[m].tag.value.generatedAt ==> seen[k].tag.value.nonce <= seen[m].tag.value.nonce)
    ensures forall k :: 0 <= k < |SeenBy(states[i], r)| ==> Genuine(env, SeenBy(states[i], r)[k])
  {
    RunInv(env, states, steps, i);
    var seen := SeenBy(states[i], r);
    assert AscendingTo(seen, TagOfOption(states[i].published));
    forall k, m | 0 <= k <= m < |seen| && seen[k].tag.Some?
      ensures seen[m].tag.Some?
      ensures seen[k].tag.value.generatedAt <= seen[m].tag.value.generatedAt
      ensures seen[k].tag.value.generatedAt == seen[m].tag.value.generatedAt ==> seen[k].tag.value.nonce <= seen[m].tag.value.nonce
    {
      AscendingInNumbers(seen, k, m);
    }
  }

  /** Once a reload call has returned, accepted or rejected, no later read observes a
      snapshot older than that call's candidate. */
  lemma {:induction false} CompletedReloadIsVisible(env: Env, states: seq<State>, steps: seq<Step>, tag: Tag, i: nat, j: nat)
    requires IsRun(env, states, steps) && i <= j < |steps|
    requires tag in states[i].finished && steps[j].Read?
    ensures var seen := SeenBy(states[j + 1], steps[j].r);
            && seen != [] && seen[|seen| - 1].tag.Some?
            && var last := seen[|seen| - 1].tag.value;
               tag.generatedAt <= last.generatedAt && (tag.generatedAt == last.generatedAt ==> tag.nonce <= last.nonce)
  {
    RunInv(env, states, steps, i);
    RunInv(env, states, steps, j);
    TagsNeverGoBack(env, states, steps, i, j);
    assert AtMost(states[j].watermark, TagOfOption(states[j].published));
  }
}
