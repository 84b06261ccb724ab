/**
 * The signed policy store (`policy.rs`): a policy is verified, written to disk, activated in the
 * governor and only then remembered, and a process may fail or die between any two of these.
 */
module Policy {
  import opened Outcome

  const MAX_POLICY_BYTES := 65_536
  const MAX_REVISION := 9_007_199_254_740_991
  const MAX_ISSUED_MS := 253_402_300_799_999
  const MAX_REASON_BYTES := 500

  // ----- envelopes and policies -----

  /** Who signed, and which bytes: what checking a signature can find out. */
  datatype Signature = Signature(signer: string, over: string)

  datatype Envelope = Envelope(payload: string, signature: Signature)

  /** The bytes of a policy file or response. */
  datatype Raw = Raw(size: nat, envelope: Option<Envelope>)

  datatype Pause = Everything | Background | Contracts | Mutations | WebSockets

  datatype Restrictions = Restrictions(
    spacing: nat, concurrency: nat, contractSpacing: nat, watchInterval: nat, pauses: set<Pause>)

  datatype Document = Document(
    schema: nat, revision: nat, issuedAt: nat, reason: string, desktop: Restrictions, scraper: Restrictions)

  /** Base64 decoding and JSON parsing. */
  datatype Reader = Reader(decode: string -> Option<string>, parse: string -> Option<Document>)

  /** `Restrictions::validate`. */
  predicate Valid(x: Restrictions) {
    && 500 <= x.spacing <= 86_400_000
    && 1 <= x.concurrency <= 2
    && 6_100 <= x.contractSpacing <= 86_400_000
    && 600_000 <= x.watchInterval <= 604_800_000
  }

  datatype AccessError = InvalidPolicy | Persistence

  function Utf8Length(s: string): nat {
    if s == "" then 0
    else
      var first := if s[0] < '\U{80}' then 1 else if s[0] < '\U{800}' then 2 else if s[0] < '\U{10000}' then 3 else 4;
      first + Utf8Length(s[1..])
  }

  predicate NoControl(s: string) {
    forall i :: 0 <= i < |s| ==> s[i] >= ' ' && !('\U{7F}' <= s[i] <= '\U{9F}')
  }

  predicate WellFormed(d: Document) {
    && d.schema == 1
    && 0 < d.revision <= MAX_REVISION
    && 0 < d.issuedAt <= MAX_ISSUED_MS
    && Utf8Length(d.reason) <= MAX_REASON_BYTES && NoControl(d.reason)
    && Valid(d.desktop) && Valid(d.scraper)
  }

  datatype Verified = Verified(envelope: Envelope, document: Document)

  /** `verify`: the signature is checked before the payload is interpreted. */
  function Verify(raw: Raw, key: string, r: Reader): Result<Verified, AccessError> {
    if raw.size > MAX_POLICY_BYTES || raw.envelope.None? then Err(InvalidPolicy)
    else
      var e := raw.envelope.value;
      var bytes := r.decode(e.payload);
      if bytes.None? || e.signature != Signature(key, bytes.value) then Err(InvalidPolicy)
      else
        var document := r.parse(bytes.value);
        if document.None? || !WellFormed(document.value) then Err(InvalidPolicy)
        else Ok(Verified(e, document.value))
  }

  /** `verify_cached`: a file on disk may also be signed by a retired key. */
  function VerifyCached(raw: Raw, key: string, previous: seq<string>, r: Reader): Result<Verified, AccessError>
    decreases |previous|
  {
    if Verify(raw, key, r).Ok? || previous == [] then Verify(raw, key, r)
    else if Verify(raw, previous[0], r).Ok? then Verify(raw, previous[0], r)
    else VerifyCached(raw, key, previous[1..], r)
  }

  // ----- the governor -----

  datatype Governor = Governor(revision: nat, reason: string, restrictions: Restrictions)

  /** `apply_policy`: only forward, and one revision always says the same. */
  function Apply(g: Governor, next: Governor): Result<Governor, AccessError> {
    if !Valid(next.restrictions) then Err(InvalidPolicy)
    else if next.revision < g.revision || (next.revision == g.revision && next != g) then Err(InvalidPolicy)
    else Ok(next)
  }

  datatype Component = Desktop | Scraper

  function OrderOf(d: Document, component: Component): Governor {
    Governor(d.revision, d.reason, if component.Desktop? then d.desktop else d.scraper)
  }

  // ----- the process and its disk -----

  /** What a process is started with. */
  datatype Settings = Settings(key: string, previous: seq<string>, component: Component)

  datatype Process =
    | Down
    | Up(settings: Settings, current: Option<Verified>, governor: Governor)

  datatype Activation = Activation(revision: nat, payload: string)

  /** `history` lists the activations so far, over all processes. */
  datatype State = State(disk: Option<Raw>, process: Process, history: seq<Activation>)

  /** How far one attempt to write, activate and remember a policy gets. */
  datatype Fate =
    | Completes
    | WriteFails(renamed: bool)     // an error before the rename, or one while syncing the directory after it
    | Dies(after: Progress)

  datatype Progress = Verifying | Renaming | Activating

  datatype Action =
    | Accept(raw: Raw, fate: Fate)
    | Advance(order: Governor)      // another part of the process moves the governor
    | Stop
    | Start(settings: Settings, readable: bool, dies: bool)

  /** `accept`, with the error it returns. */
  function AcceptStep(s: State, raw: Raw, fate: Fate, r: Reader): (State, Result<(), AccessError>)
    requires s.process.Up?
  {
    var p := s.process;
    var verified := Verify(raw, p.settings.key, r);
    if verified.Err? then (s, Err(verified.error))
    else
      var v := verified.value;
      var revision := v.document.revision;
      if p.current.Some? && revision < p.current.value.document.revision then (s, Err(InvalidPolicy))
      else if p.current.Some? && revision == p.current.value.document.revision then
        (s, if v.envelope.payload != p.current.value.envelope.payload then Err(InvalidPolicy) else Ok(()))
      else if fate == Dies(Verifying) then (s.(process := Down), Err(Persistence))
      else if fate == WriteFails(false) then (s, Err(Persistence))
      else
        var written := s.(disk := Some(raw));
        if fate == WriteFails(true) then (written, Err(Persistence))
        else if fate == Dies(Renaming) then (written.(process := Down), Err(Persistence))
        else
          var applied := Apply(p.governor, OrderOf(v.document, p.settings.component));
          if applied.Err? then (written, Err(applied.error))
          else
            var active := written.(history := s.history + [Activation(revision, v.envelope.payload)]);
            if fate == Dies(Activating) then (active.(process := Down), Err(Persistence))
            else (active.(process := Up(p.settings, Some(v), applied.value)), Ok(()))
  }

  /** `load` in a new process, whose governor is `initial`; an error leaves no store. */
  function StartStep(s: State, settings: Settings, readable: bool, dies: bool, initial: Governor, r: Reader)
    : (State, Result<(), AccessError>)
    requires s.process.Down?
  {
    if !readable then (s, Err(Persistence))
    else if s.disk.None? then (s.(process := Up(settings, None, initial)), Ok(()))
    else
      var verified := VerifyCached(s.disk.value, settings.key, settings.previous, r);
      if verified.Err? then (s, Err(verified.error))
      else
        var v := verified.value;
        var applied := Apply(initial, OrderOf(v.document, settings.component));
        if applied.Err? then (s, Err(applied.error))
        else
          var active := s.(history := s.history + [Activation(v.document.revision, v.envelope.payload)]);
          if dies then (active, Err(Persistence))
          else (active.(process := Up(settings, Some(v), applied.value)), Ok(()))
  }

  function Step(s: State, action: Action, initial: Governor, r: Reader): State {
    match action
    case Accept(raw, fate) => if s.process.Up? then AcceptStep(s, raw, fate, r).0 else s
    case Advance(order) =>
      if s.process.Up? && Apply(s.process.governor, order).Ok? then s.(process := s.process.(governor := order)) else s
    case Stop => s.(process := Down)
    case Start(settings, readable, dies) =>
      if s.process.Down? then StartStep(s, settings, readable, dies, initial, r).0 else s
  }

  function Run(s: State, actions: seq<Action>, initial: Governor, r: Reader): State
    decreases |actions|
  {
    if actions == [] then s else Run(Step(s, actions[0], initial, r), actions[1..], initial, r)
  }

  // ----- what every run keeps -----

  function Payload(raw: Raw): string {
    if raw.envelope.Some? then raw.envelope.value.payload else ""
  }

  /** The revision a file carries, whoever signed it. */
  function Revision(raw: Raw, r: Reader): Option<nat> {
    if raw.envelope.None? then None
    else
      var bytes := r.decode(raw.envelope.value.payload);
      if bytes.None? then None
      else
        var document := r.parse(bytes.value);
        if document.None? then None else Some(document.value.revision)
  }

  /** Activated revisions never go back, and one revision always has one payload. */
  predicate Monotone(history: seq<Activation>) {
    forall i, j :: 0 <= i < j < |history| ==>
      history[i].revision <= history[j].revision
      && (history[i].revision == history[j].revision ==> history[i].payload == history[j].payload)
  }

  /** The file holds the last activation, or something newer. */
  predicate DiskCovers(s: State, r: Reader) {
    s.history != [] ==>
      var last := s.history[|s.history| - 1];
      s.disk.Some? && Revision(s.disk.value, r).Some?
      && Revision(s.disk.value, r).value >= last.revision
      && (Revision(s.disk.value, r).value == last.revision ==> Payload(s.disk.value) == last.payload)
  }

  /** A running store remembers exactly the last activation, if there was any. */
  predicate Remembers(s: State) {
    s.process.Up? ==>
      if s.history == [] then s.process.current == None
      else
        var last := s.history[|s.history| - 1];
        s.process.current.Some?
        && s.process.current.value.document.revision == last.revision
        && s.process.current.value.envelope.payload == last.payload
  }

  predicate Safe(s: State, r: Reader) {
    Monotone(s.history) && DiskCovers(s, r) && Remembers(s)
  }

  lemma VerifiedIs(raw: Raw, key: string, r: Reader)
    requires Verify(raw, key, r).Ok?
    ensures var v := Verify(raw, key, r).value;
            Payload(raw) == v.envelope.payload && Revision(raw, r) == Some(v.document.revision)
  {
  }

  lemma {:induction false} VerifiedCachedIs(raw: Raw, key: string, previous: seq<string>, r: Reader)
    requires VerifyCached(raw, key, previous, r).Ok?
    ensures var v := VerifyCached(raw, key, previous, r).value;
            Payload(raw) == v.envelope.payload && Revision(raw, r) == Some(v.document.revision)
    ensures exists signer :: (signer == key || signer in previous)
              && Verify(raw, signer, r) == VerifyCached(raw, key, previous, r)
    decreases |previous|
  {
    if Verify(raw, key, r).Err? && previous != [] && Verify(raw, previous[0], r).Err? {
      VerifiedCachedIs(raw, key, previous[1..], r);
    }
  }

  lemma ActivationKeepsOrder(history: seq<Activation>, next: Activation)
    requires Monotone(history)
    requires history != [] ==>
      var last := history[|history| - 1];
      last.revision <= next.revision && (last.revision == next.revision ==> last.payload == next.payload)
    ensures Monotone(history + [next])
  {
    var all := history + [next];
    forall i, j | 0 <= i < j < |all|
      ensures all[i].revision <= all[j].revision
      ensures all[i].revision == all[j].revision ==> all[i].payload == all[j].payload
    {
      if j == |history| && i < |history| - 1 {
        assert history[i].revision <= history[|history| - 1].revision;
      }
    }
  }

  /** `raw` may follow what the store remembers. */
  predicate Newer(s: State, raw: Raw, v: Verified, r: Reader) {
    && s.process.Up?
    && (s.process.current.Some? ==> v.document.revision > s.process.current.value.document.revision)
    && Payload(raw) == v.envelope.payload && Revision(raw, r) == Some(v.document.revision)
  }

  /** A newer file on disk is safe whether or not it is activated, and whether or not the process lives on. */
  lemma WrittenIsSafe(s: State, raw: Raw, v: Verified, r: Reader)
    requires Safe(s, r) && Newer(s, raw, v, r)
    ensures Safe(s.(disk := Some(raw)), r) && Safe(s.(disk := Some(raw), process := Down), r)
  {
  }

  lemma ActivatedIsSafe(s: State, raw: Raw, v: Verified, g: Governor, r: Reader)
    requires Safe(s, r) && Newer(s, raw, v, r)
    ensures var history := s.history + [Activation(v.document.revision, v.envelope.payload)];
            && Safe(State(Some(raw), Down, history), r)
            && Safe(State(Some(raw), Up(s.process.settings, Some(v), g), history), r)
  {
    ActivationKeepsOrder(s.history, Activation(v.document.revision, v.envelope.payload));
  }

  lemma DownIsSafe(s: State, r: Reader)
    requires Safe(s, r)
    ensures Safe(s.(process := Down), r)
  {
  }

  lemma AcceptKeepsSafe(s: State, raw: Raw, fate: Fate, r: Reader)
    requires s.process.Up? && Safe(s, r)
    ensures Safe(AcceptStep(s, raw, fate, r).0, r)
  {
    var p := s.process;
    var verified := Verify(raw, p.settings.key, r);
    DownIsSafe(s, r);
    if verified.Ok? {
      VerifiedIs(raw, p.settings.key, r);
      var v := verified.value;
      if p.current.None? || v.document.revision > p.current.value.document.revision {
        assert Newer(s, raw, v, r);
        WrittenIsSafe(s, raw, v, r);
        ActivatedIsSafe(s, raw, v, OrderOf(v.document, p.settings.component), r);
        AcceptOutcomes(s, raw, fate, r);
      } else {
        assert AcceptStep(s, raw, fate, r).0 == s;
      }
    }
  }

  /** The states a newer file can lead to. */
  lemma AcceptOutcomes(s: State, raw: Raw, fate: Fate, r: Reader)
    requires s.process.Up? && Verify(raw, s.process.settings.key, r).Ok?
    ensures var v := Verify(raw, s.process.settings.key, r).value;
            var order := OrderOf(v.document, s.process.settings.component);
            var history := s.history + [Activation(v.document.revision, v.envelope.payload)];
            AcceptStep(s, raw, fate, r).0 in {
              s, s.(process := Down), s.(disk := Some(raw)), s.(disk := Some(raw), process := Down),
              State(Some(raw), Down, history),
              State(Some(raw), Up(s.process.settings, Some(v), order), history)}
  {
  }

  lemma StartKeepsSafe(s: State, settings: Settings, readable: bool, dies: bool, initial: Governor, r: Reader)
    requires s.process.Down? && Safe(s, r)
    ensures Safe(StartStep(s, settings, readable, dies, initial, r).0, r)
  {
    if s.disk.Some? && VerifyCached(s.disk.value, settings.key, settings.previous, r).Ok? {
      VerifiedCachedIs(s.disk.value, settings.key, settings.previous, r);
      var v := VerifyCached(s.disk.value, settings.key, settings.previous, r).value;
      ActivationKeepsOrder(s.history, Activation(v.document.revision, v.envelope.payload));
    }
  }

  lemma {:induction false} RunKeepsSafe(s: State, actions: seq<Action>, initial: Governor, r: Reader)
    requires Safe(s, r)
    ensures Safe(Run(s, actions, initial, r), r)
    decreases |actions|
  {
    if actions != [] {
      match actions[0] {
        case Accept(raw, fate) =>
          if s.process.Up? {
            AcceptKeepsSafe(s, raw, fate, r);
          }
        case Start(settings, readable, dies) =>
          if s.process.Down? {
            StartKeepsSafe(s, settings, readable, dies, initial, r);
          }
        case _ =>
      }
      RunKeepsSafe(Step(s, actions[0], initial, r), actions[1..], initial, r);
    }
  }

  /**
   * Over every run of accepts, failed writes, refused activations, crashes and restarts, from any
   * file found on disk: revisions never go back, one revision has one payload, and the file on
   * disk is never older than what was last activated.
   */
  lemma EveryRunIsSafe(file: Option<Raw>, actions: seq<Action>, initial: Governor, r: Reader)
    ensures Safe(Run(State(file, Down, []), actions, initial, r), r)
  {
    RunKeepsSafe(State(file, Down, []), actions, initial, r);
  }

  lemma {:induction false} HistoryGrows(s: State, actions: seq<Action>, initial: Governor, r: Reader)
    ensures s.history <= Run(s, actions, initial, r).history
    decreases |actions|
  {
    if actions != [] {
      HistoryGrows(Step(s, actions[0], initial, r), actions[1..], initial, r);
    }
  }

  lemma ReplayRefusedNow(s: State, r: Reader, i: nat, raw: Raw, fate: Fate)
    requires Safe(s, r) && i < |s.history| && s.process.Up? && Revision(raw, r).Some?
    requires Revision(raw, r).value < s.history[i].revision
          || (Revision(raw, r).value == s.history[i].revision && Payload(raw) != s.history[i].payload)
    ensures AcceptStep(s, raw, fate, r) == (s, Err(InvalidPolicy))
  {
    var last := s.history[|s.history| - 1];
    if Verify(raw, s.process.settings.key, r).Ok? {
      VerifiedIs(raw, s.process.settings.key, r);
      assert i < |s.history| - 1 ==> s.history[i].revision <= last.revision;
    }
  }

  /** What has been activated cannot be replaced by anything older or by another text of its revision. */
  lemma ReplayRefused(s: State, actions: seq<Action>, initial: Governor, r: Reader, i: nat, raw: Raw, fate: Fate)
    requires Safe(s, r) && i < |s.history|
    requires Run(s, actions, initial, r).process.Up? && Revision(raw, r).Some?
    requires Revision(raw, r).value < s.history[i].revision
          || (Revision(raw, r).value == s.history[i].revision && Payload(raw) != s.history[i].payload)
    ensures AcceptStep(Run(s, actions, initial, r), raw, fate, r) == (Run(s, actions, initial, r), Err(InvalidPolicy))
  {
    RunKeepsSafe(s, actions, initial, r);
    HistoryGrows(s, actions, initial, r);
    var now := Run(s, actions, initial, r);
    assert now.history[i] == s.history[i];
    ReplayRefusedNow(now, r, i, raw, fate);
  }

  /** A key that is not the current one publishes nothing, whatever it signs. */
  lemma RetiredKeyPublishesNothing(s: State, raw: Raw, fate: Fate, r: Reader)
    requires s.process.Up? && raw.envelope.Some? && raw.envelope.value.signature.signer != s.process.settings.key
    ensures AcceptStep(s, raw, fate, r) == (s, Err(InvalidPolicy))
  {
  }

  /** A run in which every process has `key` as its current key and nothing signed with it arrives. */
  predicate KeyIsSilent(actions: seq<Action>, key: string) {
    forall i :: 0 <= i < |actions| ==>
      match actions[i]
      case Accept(raw, _) => raw.envelope.Some? ==> raw.envelope.value.signature.signer != key
      case Start(settings, _, _) => settings.key == key
      case _ => true
  }

  /** All of these activations came from one file. */
  predicate FromFile(history: seq<Activation>, file: Option<Raw>) {
    forall i :: 0 <= i < |history| ==> file.Some? && history[i].payload == Payload(file.value)
  }

  /** Everything activated so far came from the file that was there at the start, which still is. */
  predicate OnlyFromFile(s: State, file: Option<Raw>, key: string) {
    && s.disk == file
    && (s.process.Up? ==> s.process.settings.key == key)
    && FromFile(s.history, file)
  }

  lemma SilentStep(s: State, action: Action, initial: Governor, r: Reader, file: Option<Raw>, key: string)
    requires OnlyFromFile(s, file, key) && KeyIsSilent([action], key)
    ensures OnlyFromFile(Step(s, action, initial, r), file, key)
  {
    assert [action][0] == action;
    if action.Accept? && s.process.Up? && action.raw.envelope.Some? {
      RetiredKeyPublishesNothing(s, action.raw, action.fate, r);
    }
    if action.Start? && s.process.Down? && file.Some?
      && VerifyCached(file.value, action.settings.key, action.settings.previous, r).Ok? {
      VerifiedCachedIs(file.value, action.settings.key, action.settings.previous, r);
      var v := VerifyCached(file.value, action.settings.key, action.settings.previous, r).value;
      OneMoreFromFile(s.history, Activation(v.document.revision, v.envelope.payload), file);
    }
  }

  lemma OneMoreFromFile(history: seq<Activation>, next: Activation, file: Option<Raw>)
    requires FromFile(history, file) && file.Some? && next.payload == Payload(file.value)
    ensures FromFile(history + [next], file)
  {
  }

  lemma {:induction false} SilentRun(s: State, actions: seq<Action>, initial: Governor, r: Reader, file: Option<Raw>, key: string)
    requires OnlyFromFile(s, file, key) && KeyIsSilent(actions, key)
    ensures OnlyFromFile(Run(s, actions, initial, r), file, key)
    decreases |actions|
  {
    if actions != [] {
      assert [actions[0]][0] == actions[0];
      SilentStep(s, actions[0], initial, r, file, key);
      assert forall i :: 0 <= i < |actions| - 1 ==> actions[1..][i] == actions[i + 1];
      SilentRun(Step(s, actions[0], initial, r), actions[1..], initial, r, file, key);
    }
  }

  /**
   * Whoever does not have the current key can change nothing, over any run: retired keys included, nothing is
   * activated but the file that was there, and that file stays.
   */
  lemma NothingWithoutTheKey(file: Option<Raw>, actions: seq<Action>, initial: Governor, r: Reader, key: string)
    requires KeyIsSilent(actions, key)
    ensures var s := Run(State(file, Down, []), actions, initial, r);
            s.disk == file && FromFile(s.history, file)
  {
    SilentRun(State(file, Down, []), actions, initial, r, file, key);
  }

  /** A newer policy signed by the current key is activated, and a restart brings it back. */
  lemma AcceptedSurvivesRestart(s: State, raw: Raw, initial: Governor, r: Reader, settings: Settings)
    requires s.process.Up? && Safe(s, r)
    requires Verify(raw, s.process.settings.key, r).Ok?
    requires var v := Verify(raw, s.process.settings.key, r).value;
             && (s.process.current.Some? ==> v.document.revision > s.process.current.value.document.revision)
             && v.document.revision > s.process.governor.revision
             && v.document.revision > initial.revision
    requires s.process.settings.key == settings.key || s.process.settings.key in settings.previous
    ensures var v := Verify(raw, s.process.settings.key, r).value;
            var accepted := AcceptStep(s, raw, Completes, r);
            var restarted := Run(accepted.0, [Stop, Start(settings, true, false)], initial, r);
            && accepted.1 == Ok(()) && accepted.0.disk == Some(raw) && accepted.0.process.current == Some(v)
            && restarted.process.Up?
            && restarted.process.current.Some?
            && restarted.process.current.value.document == v.document
            && restarted.process.governor == OrderOf(v.document, settings.component)
  {
    var v := Verify(raw, s.process.settings.key, r).value;
    var accepted := AcceptStep(s, raw, Completes, r).0;
    CachedFinds(raw, settings.key, settings.previous, s.process.settings.key, r);
    var stopped := Step(accepted, Stop, initial, r);
    var actions := [Stop, Start(settings, true, false)];
    assert actions[1..] == [Start(settings, true, false)];
    assert actions[1..][1..] == [];
    var started := Step(stopped, Start(settings, true, false), initial, r);
    assert Run(stopped, actions[1..], initial, r) == Run(started, [], initial, r);
  }

  /** Any trusted signer of the file is enough, and the document does not depend on which. */
  lemma {:induction false} CachedFinds(raw: Raw, key: string, previous: seq<string>, signer: string, r: Reader)
    requires Verify(raw, signer, r).Ok? && (signer == key || signer in previous)
    ensures VerifyCached(raw, key, previous, r) == Verify(raw, signer, r)
    decreases |previous|
  {
    if Verify(raw, key, r).Err? && Verify(raw, previous[0], r).Err? {
      CachedFinds(raw, key, previous[1..], signer, r);
    }
  }

  // ----- the store as it runs -----

  type Bytes = seq<char>

  /** What the file on disk says. */
  function OnDisk(disk: Disk, read: Bytes -> Raw): Option<Raw>
    reads disk
  {
    if disk.file.Some? then Some(read(disk.file.value)) else None
  }

  /** The policy file and the temporary file next to it. */
  class Disk {
    var file: Option<Bytes>
    var temp: Option<Bytes>

    constructor (file: Option<Bytes>)
      ensures this.file == file
    {
      this.file := file;
      temp := None;
    }

    /**
     * `atomic_write`: the temporary file is written byte by byte and then renamed. What fails or dies before the
     * rename does so after `reach` steps: before the file is opened, after any number of bytes, or once all of them
     * are written. Whatever happens, the file is the old one or all of the new one; a prefix stays in the other.
     */
    method AtomicWrite(bytes: Bytes, fate: Fate, reach: nat) returns (written: Result<(), AccessError>)
      modifies this
      ensures file == old(file) || file == Some(bytes)
      ensures written.Ok? ==> file == Some(bytes) && temp == None
      ensures written.Ok? <==> fate == Completes || fate == Dies(Activating)
      ensures written.Err? ==> written.error == Persistence
      ensures fate == WriteFails(true) || fate == Dies(Renaming) ==> file == Some(bytes)
      ensures fate == WriteFails(false) || fate == Dies(Verifying) ==> file == old(file)
      ensures temp == old(temp) || temp == None || temp.value <= bytes
    {
      var early := fate == WriteFails(false) || fate == Dies(Verifying);
      if early && reach == 0 {
        return Err(Persistence);
      }
      temp := Some([]);
      for i := 0 to |bytes|
        invariant temp == Some(bytes[..i]) && file == old(file)
      {
        if early && reach == i + 1 {
          return Err(Persistence);
        }
        temp := Some(temp.value + [bytes[i]]);
        assert bytes[..i + 1] == bytes[..i] + [bytes[i]];
      }
      assert bytes[..|bytes|] == bytes;
      if early {
        return Err(Persistence);
      }
      file, temp := temp, None;
      if fate == WriteFails(true) || fate == Dies(Renaming) {
        return Err(Persistence);
      }
      assert fate.Dies? ==> fate.after.Activating?;
      assert fate.Completes? || fate.Dies?;
      written := Ok(());
    }
  }

  /** What keeps a write from completing. */
  lemma StoppedBy(fate: Fate)
    requires fate != Completes && fate != Dies(Activating)
    ensures fate == WriteFails(true) || fate == WriteFails(false) || fate == Dies(Verifying) || fate == Dies(Renaming)
  {
    match fate
    case WriteFails(renamed) => assert renamed || !renamed;
    case Dies(after) => assert after.Verifying? || after.Renaming?;
  }

  /** A store in a running process. `alive` is false once the process has died. */
  class PolicyStore {
    const settings: Settings
    const reader: Reader
    const read: Bytes -> Raw
    const disk: Disk
    var current: Option<Verified>
    var governor: Governor
    var alive: bool
    ghost var history: seq<Activation>

    ghost function Now(): State
      reads this, disk
    {
      State(OnDisk(disk, read), if alive then Up(settings, current, governor) else Down, history)
    }

    constructor (settings: Settings, reader: Reader, read: Bytes -> Raw, disk: Disk, initial: Governor,
                 ghost history: seq<Activation>)
      ensures this.settings == settings && this.reader == reader && this.read == read && this.disk == disk && alive
      ensures Now() == State(OnDisk(disk, read), Up(settings, None, initial), history)
    {
      this.settings := settings;
      this.reader := reader;
      this.read := read;
      this.disk := disk;
      current := None;
      governor := initial;
      alive := true;
      this.history := history;
    }

    /** `activate`: the governor takes the orders for this component, or refuses them. */
    method Activate(v: Verified) returns (r: Result<(), AccessError>)
      modifies this`governor, this`history
      ensures var applied := Apply(old(governor), OrderOf(v.document, settings.component));
              if applied.Ok? then
                r == Ok(()) && governor == applied.value
                && history == old(history) + [Activation(v.document.revision, v.envelope.payload)]
              else r == Err(applied.error) && governor == old(governor) && history == old(history)
      ensures r.Ok? ==>
                && governor.revision == v.document.revision && governor.reason == v.document.reason
                && (settings.component == Desktop ==> governor.restrictions == v.document.desktop)
                && (settings.component == Scraper ==> governor.restrictions == v.document.scraper)
    {
      var applied := Apply(governor, OrderOf(v.document, settings.component));
      if applied.Err? {
        return Err(applied.error);
      }
      governor := applied.value;
      history := history + [Activation(v.document.revision, v.envelope.payload)];
      r := Ok(());
    }

    /** `accept`: persisted before it is activated, activated before it is remembered. */
    method AcceptPolicy(bytes: Bytes, fate: Fate, reach: nat) returns (r: Result<(), AccessError>)
      requires alive
      modifies this, disk
      ensures (Now(), r) == AcceptStep(old(Now()), read(bytes), fate, reader)
    {
      var verified := Verify(read(bytes), settings.key, reader);
      if verified.Err? {
        return Err(verified.error);
      }
      var v := verified.value;
      if current.Some? {
        var prior := current.value;
        if v.document.revision < prior.document.revision
          || (v.document.revision == prior.document.revision && v.envelope.payload != prior.envelope.payload) {
          return Err(InvalidPolicy);
        }
        if v.document.revision == prior.document.revision {
          return Ok(());
        }
      }
      var written := disk.AtomicWrite(bytes, fate, reach);
      if written.Err? {
        alive := !fate.Dies?;
        StoppedBy(fate);
        return Err(Persistence);
      }
      var activated := Activate(v);
      if activated.Err? {
        return Err(activated.error);
      }
      if fate.Dies? {
        assert fate.after.Activating?;
        alive := false;
        return Err(Persistence);
      }
      current := Some(v);
      r := Ok(());
    }
  }

  /** `load`: the cached policy is activated before the store is handed out. */
  method Load(settings: Settings, reader: Reader, read: Bytes -> Raw, disk: Disk, readable: bool,
              initial: Governor, ghost history: seq<Activation>)
    returns (store: PolicyStore, r: Result<(), AccessError>)
    ensures fresh(store) && store.disk == disk && store.alive
    ensures r == StartStep(State(OnDisk(disk, read), Down, history), settings, readable, false, initial, reader).1
    ensures r.Ok? ==> store.Now() == StartStep(State(OnDisk(disk, read), Down, history), settings, readable, false, initial, reader).0
  {
    store := new PolicyStore(settings, reader, read, disk, initial, history);
    if !readable {
      return store, Err(Persistence);
    }
    if disk.file.None? {
      return store, Ok(());
    }
    var verified := VerifyCached(read(disk.file.value), settings.key, settings.previous, reader);
    if verified.Err? {
      return store, Err(verified.error);
    }
    var activated := store.Activate(verified.value);
    if activated.Err? {
      return store, Err(activated.error);
    }
    store.current := Some(verified.value);
    r := Ok(());
  }
}
