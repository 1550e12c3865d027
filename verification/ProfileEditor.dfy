/** The settings editor around one execution profile: the handlers for its networking, preview, browser and
    secret controls, and what a whole editing session keeps of the runner's rules. */
module ProfileEditor {
  import opened Wrappers
  import opened CanonicalLists
  import opened Browser

  datatype SecretOption = SecretOption(secretId: string, secretVersion: int, environmentName: string)

  // ----- The phases of a secret

  /** No other binding than `except` gives the name in the phase. */
  predicate PhaseAvailable(bindings: seq<SecretBinding>, name: string, exposure: string, except: int) {
    forall k :: 0 <= k < |bindings| && k != except ==> !(bindings[k].envName == name && bindings[k].exposure == exposure)
  }

  function FreeExposure(bindings: seq<SecretBinding>, name: string, outbound: bool): (e: Option<string>)
    ensures e.Some? ==> PhaseAvailable(bindings, name, e.value, -1) && (outbound ==> e.value == "setup")
  {
    if !outbound && PhaseAvailable(bindings, name, "runtime", -1) then Some("runtime")
    else if !outbound && PhaseAvailable(bindings, name, "test", -1) then Some("test")
    else if PhaseAvailable(bindings, name, "setup", -1) then Some("setup")
    else None
  }

  /** The binding that the add button appends: the first option with a free phase. */
  function NextBinding(options: seq<SecretOption>, bindings: seq<SecretBinding>, outbound: bool): (b: Option<SecretBinding>)
    ensures b.Some? ==> PhaseAvailable(bindings, b.value.envName, b.value.exposure, -1)
    ensures b.Some? && outbound ==> b.value.exposure == "setup"
  {
    if options == [] then None
    else
      var o := options[0];
      var exposure := FreeExposure(bindings, o.environmentName, outbound);
      if exposure.Some? then Some(SecretBinding(o.environmentName, o.secretId, o.secretVersion, exposure.value))
      else NextBinding(options[1..], bindings, outbound)
  }

  /** What a name may still be bound for, by the order in which the editor looks. */
  ghost predicate FirstFree(bindings: seq<SecretBinding>, name: string, outbound: bool, exposure: string) {
    && (forall b :: b in bindings ==> !(b.envName == name && b.exposure == exposure))
    && (exposure == "runtime" || exposure == "test" || exposure == "setup")
    && (outbound ==> exposure == "setup")
    && (exposure == "test" ==> exists b :: b in bindings && b.envName == name && b.exposure == "runtime")
    && (exposure == "setup" && !outbound ==>
          && (exists b :: b in bindings && b.envName == name && b.exposure == "runtime")
          && exists b :: b in bindings && b.envName == name && b.exposure == "test")
  }

  lemma PhaseIsFree(bindings: seq<SecretBinding>, name: string, exposure: string)
    ensures PhaseAvailable(bindings, name, exposure, -1)
       <==> forall b :: b in bindings ==> !(b.envName == name && b.exposure == exposure)
  {
  }

  lemma SetupIsNoOther()
    ensures "setup" != "runtime" && "setup" != "test" && "runtime" != "test"
  {
    assert "setup"[0] == 's' && "runtime"[0] == 'r' && "test"[0] == 't';
  }

  lemma FreeExposureIsFirst(bindings: seq<SecretBinding>, name: string, outbound: bool)
    ensures var e := FreeExposure(bindings, name, outbound);
            && (e.Some? ==> FirstFree(bindings, name, outbound, e.value))
            && (e.None? ==> forall x :: !FirstFree(bindings, name, outbound, x))
  {
    SetupIsNoOther();
    PhaseIsFree(bindings, name, "runtime");
    PhaseIsFree(bindings, name, "test");
    PhaseIsFree(bindings, name, "setup");
  }

  /** The button adds the first secret on offer that can still be bound, for the first phase it can. */
  lemma {:induction false} NextBindingIsFirst(options: seq<SecretOption>, bindings: seq<SecretBinding>, outbound: bool)
    ensures var b := NextBinding(options, bindings, outbound);
            && (b.None? ==> forall k, x :: 0 <= k < |options| ==>
                  !FirstFree(bindings, options[k].environmentName, outbound, x))
            && (b.Some? ==> exists k ::
                  && 0 <= k < |options|
                  && FirstFree(bindings, options[k].environmentName, outbound, b.value.exposure)
                  && b.value.envName == options[k].environmentName && b.value.secretId == options[k].secretId
                  && b.value.secretVersion == options[k].secretVersion
                  && forall j, x :: 0 <= j < k ==> !FirstFree(bindings, options[j].environmentName, outbound, x))
  {
    if options != [] {
      var o := options[0];
      FreeExposureIsFirst(bindings, o.environmentName, outbound);
      if FreeExposure(bindings, o.environmentName, outbound).None? {
        NextBindingIsFirst(options[1..], bindings, outbound);
        var b := NextBinding(options[1..], bindings, outbound);
        if b.Some? {
          var k :| && 0 <= k < |options[1..]|
                   && FirstFree(bindings, options[1..][k].environmentName, outbound, b.value.exposure)
                   && b.value.envName == options[1..][k].environmentName && b.value.secretId == options[1..][k].secretId
                   && b.value.secretVersion == options[1..][k].secretVersion
                   && forall j, x :: 0 <= j < k ==> !FirstFree(bindings, options[1..][j].environmentName, outbound, x);
          assert options[k + 1] == options[1..][k];
          forall j, x | 0 <= j < k + 1 ensures !FirstFree(bindings, options[j].environmentName, outbound, x) {
            if j > 0 {
              assert options[j] == options[1..][j - 1];
            }
          }
        } else {
          forall j, x | 0 <= j < |options| ensures !FirstFree(bindings, options[j].environmentName, outbound, x) {
            if j > 0 {
              assert options[j] == options[1..][j - 1];
            }
          }
        }
      } else {
        assert options[0] == o;
      }
    }
  }

  // ----- Edits

  datatype Edit =
    | Inbound(enabled: bool)
    | Outbound(enabled: bool)
    | Preview(enabled: bool)
    | BrowserTool(enabled: bool)
    | ReplaceSecret(index: nat, option: SecretOption)
    | ReplaceExposure(index: nat, exposure: string)
    | RemoveSecret(index: nat)
    | AddSecret(options: seq<SecretOption>)

  function WithBinding(c: Config, index: nat, b: SecretBinding): Config
    requires index < |c.secretBindings|
  {
    c.(secretBindings := c.secretBindings[index := b])
  }

  /** A row offers the secrets of its own name and those whose phase no other row has. */
  predicate Offered(c: Config, index: nat, option: SecretOption)
    requires index < |c.secretBindings|
  {
    var b := c.secretBindings[index];
    option.environmentName == b.envName || PhaseAvailable(c.secretBindings, option.environmentName, b.exposure, index)
  }

  predicate ExposureAllowed(c: Config, index: nat, exposure: string)
    requires index < |c.secretBindings|
  {
    && !(c.allowOutbound && exposure != "setup")
    && PhaseAvailable(c.secretBindings, c.secretBindings[index].envName, exposure, index)
  }

  function AfterEdit(cat: Catalogue, c: Config, e: Edit): Config {
    match e
    case Inbound(enabled) => c.(allowInbound := enabled, previewEnabled := enabled && c.previewEnabled)
    case Outbound(enabled) => if enabled && HasExecutionSecret(c) then c else c.(allowOutbound := enabled)
    case Preview(enabled) => if c.allowInbound then c.(previewEnabled := enabled) else c
    case BrowserTool(enabled) =>
      if AllText(c.installCommands) then ConfigureBrowserInteraction(cat, c, enabled).config else c
    case ReplaceSecret(i, o) =>
      if i < |c.secretBindings| && Offered(c, i, o) then
        WithBinding(c, i, SecretBinding(o.environmentName, o.secretId, o.secretVersion, c.secretBindings[i].exposure))
      else c
    case ReplaceExposure(i, exposure) =>
      if i < |c.secretBindings| && ExposureAllowed(c, i, exposure) then
        WithBinding(c, i, c.secretBindings[i].(exposure := exposure))
      else c
    case RemoveSecret(i) =>
      if i < |c.secretBindings| then c.(secretBindings := c.secretBindings[..i] + c.secretBindings[i + 1..]) else c
    case AddSecret(options) =>
      var b := NextBinding(options, c.secretBindings, c.allowOutbound);
      if b.Some? then c.(secretBindings := c.secretBindings + [b.value]) else c
  }

  /** The rows but one, as the filter leaves them. */
  method Without(rows: seq<SecretBinding>, index: nat) returns (left: seq<SecretBinding>)
    ensures |left| == (if index < |rows| then |rows| - 1 else |rows|)
    ensures forall k :: 0 <= k < |left| ==> left[k] == rows[if k < index then k else k + 1]
    ensures left == if index < |rows| then rows[..index] + rows[index + 1..] else rows
  {
    left := [];
    var i := 0;
    while i < |rows|
      invariant 0 <= i <= |rows| && |left| == (if i <= index then i else i - 1)
      invariant forall k :: 0 <= k < |left| ==> left[k] == rows[if k < index then k else k + 1]
    {
      if i != index {
        left := left + [rows[i]];
      }
      i := i + 1;
    }
  }

  class Editor {
    const cat: Catalogue
    var config: Config
    var saved: bool

    constructor (cat: Catalogue, config: Config)
      ensures this.cat == cat && this.config == config && saved
    {
      this.cat, this.config, saved := cat, config, true;
    }

    method ChangeInboundNetworking(enabled: bool)
      modifies this
      ensures config == AfterEdit(cat, old(config), Inbound(enabled)) && !saved
      ensures config.allowInbound == enabled && config.previewEnabled == (old(config).previewEnabled && enabled)
      ensures config == old(config).(allowInbound := config.allowInbound, previewEnabled := config.previewEnabled)
    {
      config := config.(allowInbound := enabled, previewEnabled := if enabled then config.previewEnabled else false);
      saved := false;
    }

    method ChangeOutboundNetworking(enabled: bool) returns (ok: bool)
      modifies this
      ensures config == AfterEdit(cat, old(config), Outbound(enabled)) && !saved
      ensures ok <==> !enabled || forall b :: b in old(config).secretBindings ==> b.exposure != "runtime" && b.exposure != "test"
      ensures config == if ok then old(config).(allowOutbound := enabled) else old(config)
    {
      saved := false;
      if enabled && HasExecutionSecret(config) {
        return false;
      }
      config := config.(allowOutbound := enabled);
      return true;
    }

    method ChangeBrowserInteraction(enabled: bool) returns (ok: bool)
      requires AllText(config.installCommands)
      modifies this
      ensures config == AfterEdit(cat, old(config), BrowserTool(enabled)) && !saved
      ensures ok <==> ConfigureBrowserInteraction(cat, old(config), enabled).error.None?
      ensures !ok ==> config == old(config)
    {
      saved := false;
      var r := ConfigureBrowserInteraction(cat, config, enabled);
      if r.error.Some? {
        return false;
      }
      config := r.config;
      return true;
    }

    /** The box that calls this is disabled without inbound access. */
    method ChangePreview(enabled: bool)
      requires config.allowInbound
      modifies this
      ensures config == AfterEdit(cat, old(config), Preview(enabled)) && !saved
      ensures config.previewEnabled == enabled && config == old(config).(previewEnabled := enabled)
    {
      config := config.(previewEnabled := enabled);
      saved := false;
    }

    /** The list of a row offers the secrets of its own name and those whose phase no other row has. */
    method ReplaceSecretBinding(index: nat, selected: Option<SecretOption>)
      modifies this
      ensures saved == (old(saved) && selected.None?)
      ensures selected.None? || index >= |old(config).secretBindings| ==> config == old(config)
      ensures selected.Some? && index < |old(config).secretBindings| ==>
                var o, rows := selected.value, old(config).secretBindings;
                && config == old(config).(secretBindings := rows[index := SecretBinding(o.environmentName, o.secretId,
                                                                                        o.secretVersion, rows[index].exposure)])
                && ((o.environmentName == rows[index].envName
                     || forall k :: 0 <= k < |rows| && k != index ==>
                          !(rows[k].envName == o.environmentName && rows[k].exposure == rows[index].exposure)) ==>
                      config == AfterEdit(cat, old(config), ReplaceSecret(index, o)))
    {
      if selected.None? {
        return;
      }
      if index < |config.secretBindings| {
        var o, row := selected.value, config.secretBindings[index];
        var replaced := row.(envName := o.environmentName, secretId := o.secretId, secretVersion := o.secretVersion);
        config := config.(secretBindings := config.secretBindings[index := replaced]);
      }
      saved := false;
    }

    method RemoveSecretBinding(index: nat)
      modifies this
      ensures config == AfterEdit(cat, old(config), RemoveSecret(index)) && !saved
      ensures config == old(config).(secretBindings := config.secretBindings)
      ensures var rows := old(config).secretBindings;
              && |config.secretBindings| == (if index < |rows| then |rows| - 1 else |rows|)
              && forall k :: 0 <= k < |config.secretBindings| ==>
                   config.secretBindings[k] == rows[if k < index then k else k + 1]
    {
      var left := Without(config.secretBindings, index);
      config := config.(secretBindings := left);
      saved := false;
    }

    method ReplaceSecretExposure(index: nat, exposure: string)
      modifies this
      ensures config == AfterEdit(cat, old(config), ReplaceExposure(index, exposure))
      ensures var before := old(config);
              var free := && index < |before.secretBindings| && (before.allowOutbound ==> exposure == "setup")
                          && forall k :: 0 <= k < |before.secretBindings| && k != index ==>
                               !(before.secretBindings[k].envName == before.secretBindings[index].envName
                                 && before.secretBindings[k].exposure == exposure);
              && config == (if free then
                   before.(secretBindings := before.secretBindings[index := before.secretBindings[index].(exposure := exposure)])
                 else before)
              && saved == (old(saved) && !free && (before.allowOutbound ==> exposure == "setup"))
    {
      if config.allowOutbound && exposure != "setup" {
        saved := false;
        return;
      }
      if index >= |config.secretBindings| {
        return;
      }
      var binding := config.secretBindings[index];
      if !PhaseAvailable(config.secretBindings, binding.envName, exposure, index) {
        return;
      }
      config := config.(secretBindings := config.secretBindings[index := binding.(exposure := exposure)]);
      saved := false;
    }

    method AddSecretBinding(options: seq<SecretOption>)
      modifies this
      ensures config == AfterEdit(cat, old(config), AddSecret(options))
      ensures var next := NextBinding(options, old(config).secretBindings, old(config).allowOutbound);
              config == if next.None? then old(config)
                        else old(config).(secretBindings := old(config).secretBindings + [next.value])
      ensures saved == (old(saved) && config == old(config))
    {
      var next := NextBinding(options, config.secretBindings, config.allowOutbound);
      if next.None? {
        return;
      }
      config := config.(secretBindings := config.secretBindings + [next.value]);
      saved := false;
    }
  }

  // ----- What a session keeps

  /** No secret of the running application or its tests while outbound access is on, no preview without
      inbound access, and no name twice in one phase. */
  ghost predicate Sound(c: Config) {
    && (c.allowOutbound ==> !HasExecutionSecret(c))
    && (c.previewEnabled ==> c.allowInbound)
    && DistinctPhases(c.secretBindings)
  }

  lemma SetupIsHarmless(b: SecretBinding)
    requires b.exposure == "setup"
    ensures !ExecutionSecret(b)
  {
    assert b.exposure[0] == 's';
  }

  lemma WithBindingKeeps(c: Config, i: nat, b: SecretBinding)
    requires Sound(c) && i < |c.secretBindings|
    requires PhaseAvailable(c.secretBindings, b.envName, b.exposure, i)
    requires c.allowOutbound ==> !ExecutionSecret(b)
    ensures Sound(WithBinding(c, i, b))
  {
    var r := WithBinding(c, i, b);
    assert forall x :: x in r.secretBindings ==> x == b || x in c.secretBindings;
  }

  lemma SameRow(c: Config, i: nat)
    requires DistinctPhases(c.secretBindings) && i < |c.secretBindings|
    ensures var b := c.secretBindings[i]; PhaseAvailable(c.secretBindings, b.envName, b.exposure, i)
  {
    forall k | 0 <= k < |c.secretBindings| && k != i ensures !SamePhase(c.secretBindings[k], c.secretBindings[i]) {
      if k < i {
        assert !SamePhase(c.secretBindings[k], c.secretBindings[i]);
      } else {
        assert !SamePhase(c.secretBindings[i], c.secretBindings[k]);
      }
    }
  }

  lemma RemovalKeeps(c: Config, i: nat)
    requires Sound(c) && i < |c.secretBindings|
    ensures Sound(c.(secretBindings := c.secretBindings[..i] + c.secretBindings[i + 1..]))
  {
    var left := c.secretBindings[..i] + c.secretBindings[i + 1..];
    assert forall k :: 0 <= k < |left| ==> left[k] == c.secretBindings[if k < i then k else k + 1];
    assert forall b :: b in left ==> b in c.secretBindings;
  }

  lemma AdditionKeeps(c: Config, b: SecretBinding)
    requires Sound(c) && PhaseAvailable(c.secretBindings, b.envName, b.exposure, -1)
    requires c.allowOutbound ==> !ExecutionSecret(b)
    ensures Sound(c.(secretBindings := c.secretBindings + [b]))
  {
    var more := c.secretBindings + [b];
    assert forall x :: x in more ==> x == b || x in c.secretBindings;
  }

  lemma BrowserToolKeeps(cat: Catalogue, c: Config, enabled: bool)
    requires Sound(c) && AllText(c.installCommands)
    ensures Sound(ConfigureBrowserInteraction(cat, c, enabled).config)
  {
    SameSecrets(c, ConfigureBrowserInteraction(cat, c, enabled).config);
  }

  lemma EditKeepsSound(cat: Catalogue, c: Config, e: Edit)
    requires Sound(c)
    ensures Sound(AfterEdit(cat, c, e))
  {
    match e
    case BrowserTool(enabled) =>
      if AllText(c.installCommands) {
        BrowserToolKeeps(cat, c, enabled);
      }
    case ReplaceSecret(i, o) =>
      if i < |c.secretBindings| && Offered(c, i, o) {
        var row := c.secretBindings[i];
        assert row in c.secretBindings && ExecutionSecret(row) == (row.exposure == "runtime" || row.exposure == "test");
        SameRow(c, i);
        WithBindingKeeps(c, i, SecretBinding(o.environmentName, o.secretId, o.secretVersion, row.exposure));
      }
    case ReplaceExposure(i, exposure) =>
      if i < |c.secretBindings| && ExposureAllowed(c, i, exposure) {
        var b := c.secretBindings[i].(exposure := exposure);
        if exposure == "setup" {
          SetupIsHarmless(b);
        }
        WithBindingKeeps(c, i, b);
      }
    case RemoveSecret(i) =>
      if i < |c.secretBindings| {
        RemovalKeeps(c, i);
      }
    case AddSecret(options) =>
      var b := NextBinding(options, c.secretBindings, c.allowOutbound);
      if b.Some? {
        if b.value.exposure == "setup" {
          SetupIsHarmless(b.value);
        }
        AdditionKeeps(c, b.value);
      }
    case Outbound(enabled) => SameSecrets(c, AfterEdit(cat, c, e));
    case _ => SameSecrets(c, AfterEdit(cat, c, e));
  }

  function Session(cat: Catalogue, c: Config, edits: seq<Edit>): Config
    decreases |edits|
  {
    if edits == [] then c else Session(cat, AfterEdit(cat, c, edits[0]), edits[1..])
  }

  /** However long the session, its result breaks the runner's networking rules only by a preview together
      with a secret of the running application: the one rule no handler looks at. */
  lemma {:induction false} SessionsKeepNetworkRules(cat: Catalogue, c: Config, edits: seq<Edit>)
    requires Sound(c)
    ensures var r := Session(cat, c, edits);
            Sound(r) && (NetworkAccepted(r) <==> !(r.previewEnabled && HasRuntimeSecret(r)))
    decreases |edits|
  {
    if edits != [] {
      EditKeepsSound(cat, c, edits[0]);
      SessionsKeepNetworkRules(cat, AfterEdit(cat, c, edits[0]), edits[1..]);
    }
  }

  /** The edits that lead from an accepted network configuration to a refused one are exactly those that
      put a secret of the running application beside a preview. */
  predicate Exposes(c: Config, e: Edit) {
    match e
    case Preview(enabled) => enabled && c.allowInbound && HasRuntimeSecret(c)
    case ReplaceExposure(i, exposure) =>
      c.previewEnabled && exposure == "runtime" && i < |c.secretBindings| && ExposureAllowed(c, i, exposure)
    case AddSecret(options) =>
      var b := NextBinding(options, c.secretBindings, c.allowOutbound);
      c.previewEnabled && b.Some? && b.value.exposure == "runtime"
    case _ => false
  }

  lemma AcceptedIffNotExposing(cat: Catalogue, c: Config, e: Edit)
    requires Sound(c) && NetworkAccepted(c)
    ensures NetworkAccepted(AfterEdit(cat, c, e)) <==> !Exposes(c, e)
  {
    EditKeepsSound(cat, c, e);
    var r := AfterEdit(cat, c, e);
    RuntimeSecretsAfter(cat, c, e);
    SessionsKeepNetworkRules(cat, r, []);
  }

  /** Whether the edited configuration has a secret of the running application. */
  lemma RuntimeSecretsAfter(cat: Catalogue, c: Config, e: Edit)
    ensures c.previewEnabled && !HasRuntimeSecret(c) ==> (HasRuntimeSecret(AfterEdit(cat, c, e)) ==> Exposes(c, e))
    ensures Exposes(c, e) ==> HasRuntimeSecret(AfterEdit(cat, c, e))
  {
    var r := AfterEdit(cat, c, e);
    match e
    case ReplaceExposure(i, exposure) =>
      if i < |c.secretBindings| && ExposureAllowed(c, i, exposure) {
        assert r.secretBindings[i] in r.secretBindings;
        assert forall x :: x in r.secretBindings ==> x == r.secretBindings[i] || x in c.secretBindings;
      }
    case ReplaceSecret(i, o) =>
      if i < |c.secretBindings| && Offered(c, i, o) {
        assert c.secretBindings[i] in c.secretBindings;
        assert forall x :: x in r.secretBindings ==> x == r.secretBindings[i] || x in c.secretBindings;
      }
    case RemoveSecret(i) =>
      if i < |c.secretBindings| {
        assert forall x :: x in r.secretBindings ==> x in c.secretBindings;
      }
    case AddSecret(options) =>
      var b := NextBinding(options, c.secretBindings, c.allowOutbound);
      if b.Some? {
        assert b.value in r.secretBindings;
        assert forall x :: x in r.secretBindings ==> x == b.value || x in c.secretBindings;
      }
    case _ => SameSecrets(c, r);
  }

  /** A previewed application with one setup secret. */
  function Previewed(): Config {
    Bare("npm").(allowInbound := true, previewEnabled := true, secretBindings := [SecretBinding("KEY", "id", 1, "setup")])
  }

  /** Such an edit exists: moving the setup secret of a previewed application to its runtime phase. */
  lemma MovingASecretExposesIt(cat: Catalogue)
    ensures Sound(Previewed()) && NetworkAccepted(Previewed())
    ensures !NetworkAccepted(AfterEdit(cat, Previewed(), ReplaceExposure(0, "runtime")))
  {
    var c := Previewed();
    SetupIsHarmless(c.secretBindings[0]);
    assert c.secretBindings[0].exposure[0] == 's';
    assert NetworkAccepted(c);
    AcceptedIffNotExposing(cat, c, ReplaceExposure(0, "runtime"));
  }
}
