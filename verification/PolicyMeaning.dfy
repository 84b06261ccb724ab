/** Which policies a store follows, and whose orders its governor then has. */
module PolicyMeaning {
  import opened Outcome
  import opened Policy

  // ----- what is signed and lawful -----

  predicate Between(lo: int, n: int, hi: int) {
    lo <= n <= hi
  }

  /** Half a second to a day, one or two at a time, 6.1 seconds to a day, ten minutes to a week. */
  predicate InBounds(x: Restrictions) {
    && Between(500, x.spacing, 86400000) && Between(1, x.concurrency, 2)
    && Between(6100, x.contractSpacing, 86400000) && Between(600000, x.watchInterval, 604800000)
  }

  predicate Lawful(d: Document) {
    && d.schema == 1
    && Between(1, d.revision, 9007199254740991) && Between(1, d.issuedAt, 253402300799999)
    && Utf8Length(d.reason) <= 500 && NoControl(d.reason)
    && InBounds(d.desktop) && InBounds(d.scraper)
  }

  /** `signer` signed the bytes of this lawful document. */
  predicate SignedBy(raw: Raw, signer: string, r: Reader, e: Envelope, d: Document) {
    && raw.size <= 65536 && raw.envelope == Some(e) && r.decode(e.payload).Some?
    && e.signature.signer == signer && e.signature.over == r.decode(e.payload).value
    && r.parse(r.decode(e.payload).value) == Some(d) && Lawful(d)
  }

  lemma VerifyMeans(raw: Raw, signer: string, r: Reader, e: Envelope, d: Document)
    ensures Verify(raw, signer, r) == Ok(Verified(e, d)) <==> SignedBy(raw, signer, r, e, d)
    ensures Verify(raw, signer, r).Err? ==> Verify(raw, signer, r).error == InvalidPolicy
  {
  }

  lemma SignedIs(raw: Raw, signer: string, r: Reader)
    requires Verify(raw, signer, r).Ok?
    ensures var v := Verify(raw, signer, r).value; SignedBy(raw, signer, r, v.envelope, v.document)
  {
    var v := Verify(raw, signer, r).value;
    VerifyMeans(raw, signer, r, v.envelope, v.document);
  }

  // ----- whose orders are in force -----

  /** The governor has the orders of the document for the component. */
  predicate InForce(g: Governor, d: Document, component: Component) {
    && g.revision == d.revision && g.reason == d.reason
    && (component == Desktop ==> g.restrictions == d.desktop)
    && (component == Scraper ==> g.restrictions == d.scraper)
  }

  /** The governor may take the orders: they are newer, or the ones it has. */
  predicate MayFollow(g: Governor, d: Document, component: Component) {
    d.revision > g.revision || InForce(g, d, component)
  }

  lemma ApplyMeans(g: Governor, d: Document, component: Component)
    requires Lawful(d)
    ensures var applied := Apply(g, OrderOf(d, component));
            && (applied.Ok? <==> MayFollow(g, d, component))
            && (applied.Ok? ==> InForce(applied.value, d, component))
            && (applied.Err? ==> applied.error == InvalidPolicy)
  {
  }

  /** The running store's governor is ahead of its policy or has the orders of it. */
  predicate Governed(s: State) {
    s.process.Up? && s.process.current.Some? ==>
      var p := s.process;
      p.governor.revision > p.current.value.document.revision
      || InForce(p.governor, p.current.value.document, p.settings.component)
  }

  lemma {:induction false} CachedSignedBy(raw: Raw, key: string, previous: seq<string>, r: Reader)
    requires VerifyCached(raw, key, previous, r).Ok?
    ensures var v := VerifyCached(raw, key, previous, r).value;
            exists signer :: (signer == key || signer in previous) && SignedBy(raw, signer, r, v.envelope, v.document)
  {
    VerifiedCachedIs(raw, key, previous, r);
    var signer :| (signer == key || signer in previous) && Verify(raw, signer, r) == VerifyCached(raw, key, previous, r);
    SignedIs(raw, signer, r);
  }

  lemma StepKeepsGoverned(s: State, action: Action, initial: Governor, r: Reader)
    requires Governed(s)
    ensures Governed(Step(s, action, initial, r))
  {
    match action
    case Accept(raw, fate) =>
      if s.process.Up? && Verify(raw, s.process.settings.key, r).Ok? {
        AcceptOutcomes(s, raw, fate, r);
      }
    case Start(settings, readable, dies) =>
    case Advance(order) =>
    case Stop =>
  }

  /** After every run a store's governor has the orders of its policy for its own component, unless it was moved ahead. */
  lemma {:induction false} GovernedAfter(s: State, actions: seq<Action>, initial: Governor, r: Reader)
    requires Governed(s)
    ensures Governed(Run(s, actions, initial, r))
    decreases |actions|
  {
    if actions != [] {
      StepKeepsGoverned(s, actions[0], initial, r);
      GovernedAfter(Step(s, actions[0], initial, r), actions[1..], initial, r);
    }
  }

  // ----- what accepting and loading do -----

  /** What one accept that nothing interrupts returns and leaves. */
  ghost predicate Accepted(s: State, raw: Raw, r: Reader, after: State, result: Result<(), AccessError>)
    requires s.process.Up?
  {
    var p := s.process;
    if exists e, d :: SignedBy(raw, p.settings.key, r, e, d) then
      var e, d :| SignedBy(raw, p.settings.key, r, e, d);
      var last := p.current;
      if last.Some? && (last.value.document.revision > d.revision
                        || (last.value.document.revision == d.revision && last.value.envelope.payload != e.payload)) then
        result == Err(InvalidPolicy) && after == s
      else if last.Some? && last.value.document.revision == d.revision then
        result == Ok(()) && after == s
      else if MayFollow(p.governor, d, p.settings.component) then
        && result == Ok(()) && after.disk == Some(raw) && after.history == s.history + [Activation(d.revision, e.payload)]
        && after.process.Up? && after.process.settings == p.settings && after.process.current == Some(Verified(e, d))
        && InForce(after.process.governor, d, p.settings.component)
      else
        result == Err(InvalidPolicy) && after == s.(disk := Some(raw))
    else result == Err(InvalidPolicy) && after == s
  }

  lemma AcceptMeans(s: State, raw: Raw, r: Reader)
    requires s.process.Up?
    ensures Accepted(s, raw, r, AcceptStep(s, raw, Completes, r).0, AcceptStep(s, raw, Completes, r).1)
  {
    var p := s.process;
    forall e, d
      ensures Verify(raw, p.settings.key, r) == Ok(Verified(e, d)) <==> SignedBy(raw, p.settings.key, r, e, d)
    {
      VerifyMeans(raw, p.settings.key, r, e, d);
    }
    if Verify(raw, p.settings.key, r).Ok? {
      var v := Verify(raw, p.settings.key, r).value;
      assert Verified(v.envelope, v.document) == v;
      ApplyMeans(p.governor, v.document, p.settings.component);
    }
  }

  /** How far a newer policy that may be followed gets when something interrupts. */
  lemma InterruptedMeans(s: State, raw: Raw, fate: Fate, r: Reader, e: Envelope, d: Document)
    requires s.process.Up? && SignedBy(raw, s.process.settings.key, r, e, d) && fate != Completes
    requires s.process.current.Some? ==> d.revision > s.process.current.value.document.revision
    requires MayFollow(s.process.governor, d, s.process.settings.component)
    ensures var (after, result) := AcceptStep(s, raw, fate, r);
            && result == Err(Persistence)
            && (after.disk == if fate in {WriteFails(false), Dies(Verifying)} then s.disk else Some(raw))
            && (after.history == s.history + if fate == Dies(Activating) then [Activation(d.revision, e.payload)] else [])
            && (after.process == if fate.Dies? then Down else s.process)
  {
    VerifyMeans(raw, s.process.settings.key, r, e, d);
    ApplyMeans(s.process.governor, d, s.process.settings.component);
    EveryFate(fate);
    assert s.history + [] == s.history;
  }

  lemma EveryFate(fate: Fate)
    ensures fate in {Completes, WriteFails(false), WriteFails(true), Dies(Verifying), Dies(Renaming), Dies(Activating)}
  {
    match fate
    case Completes =>
    case WriteFails(renamed) => assert renamed || !renamed;
    case Dies(after) =>
      match after
      case Verifying =>
      case Renaming =>
      case Activating =>
  }

  /** What starting on a readable file returns and leaves, when the process lives. */
  ghost predicate Started(s: State, settings: Settings, initial: Governor, r: Reader, after: State, result: Result<(), AccessError>) {
    if s.disk.None? then
      result == Ok(()) && after == s.(process := Up(settings, None, initial))
    else if exists signer, e, d :: (signer == settings.key || signer in settings.previous) && SignedBy(s.disk.value, signer, r, e, d) then
      var signer, e, d :| (signer == settings.key || signer in settings.previous) && SignedBy(s.disk.value, signer, r, e, d);
      if MayFollow(initial, d, settings.component) then
        && result == Ok(()) && after.disk == s.disk && after.history == s.history + [Activation(d.revision, e.payload)]
        && after.process.Up? && after.process.settings == settings && after.process.current == Some(Verified(e, d))
        && InForce(after.process.governor, d, settings.component)
      else result == Err(InvalidPolicy) && after == s
    else result == Err(InvalidPolicy) && after == s
  }

  lemma StartMeans(s: State, settings: Settings, initial: Governor, r: Reader)
    requires s.process.Down?
    ensures Started(s, settings, initial, r, StartStep(s, settings, true, false, initial, r).0,
                    StartStep(s, settings, true, false, initial, r).1)
  {
    if s.disk.Some? {
      var raw := s.disk.value;
      forall signer, e, d | (signer == settings.key || signer in settings.previous) && SignedBy(raw, signer, r, e, d)
        ensures VerifyCached(raw, settings.key, settings.previous, r) == Ok(Verified(e, d))
      {
        VerifyMeans(raw, signer, r, e, d);
        CachedFinds(raw, settings.key, settings.previous, signer, r);
      }
      var cached := VerifyCached(raw, settings.key, settings.previous, r);
      if cached.Ok? {
        CachedSignedBy(raw, settings.key, settings.previous, r);
        ApplyMeans(initial, cached.value.document, settings.component);
      } else {
        CachedRefuses(raw, settings.key, settings.previous, r);
      }
    }
  }

  /** An unreadable file stops the start; a process that dies once the policy is active has activated it. */
  lemma FailedStart(s: State, settings: Settings, readable: bool, initial: Governor, r: Reader)
    requires s.process.Down?
    ensures !readable ==> StartStep(s, settings, readable, false, initial, r) == (s, Err(Persistence))
    ensures readable ==>
              var lived, died := StartStep(s, settings, true, false, initial, r), StartStep(s, settings, true, true, initial, r);
              if s.disk.Some? && lived.1 == Ok(()) then died == (lived.0.(process := Down), Err(Persistence)) else died == lived
  {
  }

  lemma {:induction false} CachedRefuses(raw: Raw, key: string, previous: seq<string>, r: Reader)
    requires VerifyCached(raw, key, previous, r).Err?
    ensures VerifyCached(raw, key, previous, r).error == InvalidPolicy
    decreases |previous|
  {
    if previous != [] && Verify(raw, previous[0], r).Err? {
      CachedRefuses(raw, key, previous[1..], r);
    }
  }

  /** A newer policy that is accepted is in force for the store's component, and after a restart for the component that starts. */
  lemma AcceptedIsInForce(s: State, raw: Raw, initial: Governor, r: Reader, settings: Settings, e: Envelope, d: Document)
    requires s.process.Up? && Safe(s, r) && SignedBy(raw, s.process.settings.key, r, e, d)
    requires s.process.current.Some? ==> d.revision > s.process.current.value.document.revision
    requires d.revision > s.process.governor.revision && d.revision > initial.revision
    requires s.process.settings.key == settings.key || s.process.settings.key in settings.previous
    ensures var accepted := AcceptStep(s, raw, Completes, r).0;
            var restarted := Run(accepted, [Stop, Start(settings, true, false)], initial, r);
            && accepted.process.Up? && InForce(accepted.process.governor, d, s.process.settings.component)
            && restarted.process.Up? && InForce(restarted.process.governor, d, settings.component)
  {
    VerifyMeans(raw, s.process.settings.key, r, e, d);
    AcceptedSurvivesRestart(s, raw, initial, r, settings);
  }
}
