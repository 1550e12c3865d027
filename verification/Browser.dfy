/** Switching the browser tool of an execution profile on and off in the settings editor, and the check
    that the runner, another process, makes of the stored configuration. */
module Browser {
  import opened Sequences
  import opened Wrappers
  import opened Text
  import opened CanonicalLists

  const MAX_COMMANDS: nat := 30
  const MAX_COMMAND_CHARACTERS: nat := 1_000

  // ----- What both processes share

  /** The command that proves Chromium launches, and the command that installs it per package manager. */
  datatype Catalogue = Catalogue(preflight: string, installs: map<string, string>) {
    predicate IsInstall(command: string) { exists name :: name in installs && installs[name] == command }

    predicate WellFormed() {
      && CommandAccepted(preflight) && !IsInstall(preflight)
      && (forall name :: name in installs ==> CommandAccepted(installs[name]) && !Inherited(name))
    }
  }

  /** The names a JavaScript object answers to although its table does not list them, among those that
      lower-casing leaves as they are. */
  predicate Inherited(name: string) { name == "constructor" || name == "__proto__" }

  predicate Prohibited(c: char) { c < ' ' && c != '\n' && c != '\t' }

  /** A command in the spelling the runner stores. */
  predicate CommandAccepted(s: string) {
    s != [] && |s| <= MAX_COMMAND_CHARACTERS && Trimmed(s) && forall c :: c in s ==> !Prohibited(c)
  }

  function Lower(s: string): string {
    if s == [] then []
    else [if 'A' <= s[0] <= 'Z' then (s[0] as int + 32) as char else s[0]] + Lower(s[1..])
  }

  /** Lower-casing turns each capital into its small letter and leaves the rest. */
  lemma {:induction false} LowerMeaning(s: string)
    ensures |Lower(s)| == |s|
    ensures forall k :: 0 <= k < |s| ==>
              if 'A' <= s[k] <= 'Z' then Lower(s)[k] as int == s[k] as int + 32 else Lower(s)[k] == s[k]
  {
    if s != [] {
      LowerMeaning(s[1..]);
    }
  }

  /** The manager's name is what stands before the first "@", if any, of the trimmed text in small letters. */
  lemma ManagerNameMeaning(packageManager: string)
    ensures var name, text := ManagerName(packageManager), Lower(Trim(packageManager));
            '@' !in name && (name == text || name + ['@'] <= text)
  {
    var text := Lower(Trim(packageManager));
    var parts := Split(text, '@');
    SplitIsFree(text, '@');
    JoinSplit(text, '@');
  }

  function ManagerName(packageManager: string): string { Split(Lower(Trim(packageManager)), '@')[0] }

  // ----- Configurations

  /** An element of a stored command list; NotText stands for a value that is no string. */
  datatype Entry = Command(text: string) | NotText

  datatype RuntimeTools = RuntimeTools(http: bool, browser: bool, logs: bool)

  datatype Config = Config(
    packageManager: string,
    installCommands: seq<Entry>,
    buildCommands: seq<Entry>,
    automaticInstall: bool,
    automaticBuild: bool,
    allowInbound: bool,
    allowOutbound: bool,
    previewEnabled: bool,
    tenkiImage: Option<string>,
    tenkiSnapshotId: Option<string>,
    publicEnvironment: seq<EnvironmentVariable>,
    secretBindings: seq<SecretBinding>,
    startCommand: Option<string>,
    applicationPort: Option<int>,
    healthCheckPath: Option<string>,
    healthCheckTimeoutMs: int,
    previewTtlMs: int,
    runtimeTools: RuntimeTools)

  predicate Set(value: Option<string>) { value.Some? && value.value != [] }

  predicate ImageProvisioned(c: Config) { Set(c.tenkiImage) || Set(c.tenkiSnapshotId) }

  predicate AllText(commands: seq<Entry>) { forall e :: e in commands ==> e.Command? }

  predicate RuntimeSecret(b: SecretBinding) { b.exposure == "runtime" }

  predicate ExecutionSecret(b: SecretBinding) { RuntimeSecret(b) || b.exposure == "test" }

  predicate HasRuntimeSecret(c: Config) { exists b :: b in c.secretBindings && RuntimeSecret(b) }

  predicate HasExecutionSecret(c: Config) { exists b :: b in c.secretBindings && ExecutionSecret(b) }

  // ----- The runner's check

  /** The checks of one environment item alone. */
  datatype ItemChecks = ItemChecks(variable: EnvironmentVariable -> bool, binding: SecretBinding -> bool)

  predicate EntryAccepted(e: Entry) { e.Command? && CommandAccepted(e.text) }

  predicate CommandsAccepted(commands: seq<Entry>) {
    |commands| <= MAX_COMMANDS && forall e :: e in commands ==> EntryAccepted(e)
  }

  predicate HealthPath(s: string) {
    && s != [] && |s| <= 500 && s[0] == '/' && (|s| > 1 ==> s[1] != '/')
    && forall c :: c in s ==> !IsSpace(c) && c != '?' && c != '#'
  }

  predicate ApplicationAccepted(c: Config) {
    && (c.startCommand.Some? ==> CommandAccepted(c.startCommand.value))
    && (c.applicationPort.Some? ==> 1_024 <= c.applicationPort.value <= 65_535)
    && (c.healthCheckPath.Some? ==> HealthPath(c.healthCheckPath.value))
    && c.startCommand.Some? == c.applicationPort.Some? == c.healthCheckPath.Some?
    && 5_000 <= c.healthCheckTimeoutMs <= 600_000 && 60_000 <= c.previewTtlMs <= 900_000
  }

  predicate ToolsAccepted(c: Config) {
    c.runtimeTools.http || c.runtimeTools.browser || c.runtimeTools.logs ==> c.startCommand.Some?
  }

  predicate NetworkAccepted(c: Config) {
    && (c.previewEnabled ==> c.allowInbound && !HasRuntimeSecret(c))
    && (c.allowOutbound ==> !HasExecutionSecret(c))
  }

  predicate RepositoryProvisioned(cat: Catalogue, c: Config) {
    var name := ManagerName(c.packageManager);
    name in cat.installs && Command(cat.installs[name]) in c.installCommands
  }

  predicate BrowserAccepted(cat: Catalogue, c: Config) {
    && c.automaticInstall
    && Command(cat.preflight) in c.installCommands
    && (if ImageProvisioned(c) then !RepositoryProvisioned(cat, c)
        else RepositoryProvisioned(cat, c) && c.allowOutbound)
  }

  ghost predicate Accepts(cat: Catalogue, c: Config, checks: ItemChecks) {
    && CommandsAccepted(c.installCommands) && CommandsAccepted(c.buildCommands)
    && (c.automaticInstall ==> c.installCommands != []) && (c.automaticBuild ==> c.buildCommands != [])
    && EnvironmentAccepted(c.publicEnvironment, c.secretBindings, checks.variable, checks.binding)
    && ApplicationAccepted(c) && ToolsAccepted(c) && NetworkAccepted(c)
    && (c.runtimeTools.browser ==> BrowserAccepted(cat, c))
  }

  // ----- The check as the runner makes it, field after field

  method IsStoredCommand(s: string) returns (ok: bool)
    ensures ok <==> CommandAccepted(s)
  {
    TrimFacts(s);
    if Trim(s) == [] || |s| > 1_000 || Trim(s) != s {
      return false;
    }
    var i := 0;
    while i < |s|
      invariant 0 <= i <= |s|
      invariant forall k :: 0 <= k < i ==> !Prohibited(s[k])
    {
      if s[i] as int < 32 && s[i] != '\n' && s[i] != '\t' {
        assert Prohibited(s[i]) && s[i] in s;
        return false;
      }
      i := i + 1;
    }
    return true;
  }

  method AreStoredCommands(commands: seq<Entry>) returns (ok: bool)
    ensures ok <==> CommandsAccepted(commands)
  {
    if |commands| > 30 {
      return false;
    }
    var i := 0;
    while i < |commands|
      invariant 0 <= i <= |commands|
      invariant forall k :: 0 <= k < i ==> EntryAccepted(commands[k])
    {
      if commands[i].NotText? {
        assert !EntryAccepted(commands[i]) && commands[i] in commands;
        return false;
      }
      var stored := IsStoredCommand(commands[i].text);
      if !stored {
        assert !EntryAccepted(commands[i]) && commands[i] in commands;
        return false;
      }
      i := i + 1;
    }
    return true;
  }

  method IsHealthPath(s: string) returns (ok: bool)
    ensures ok <==> HealthPath(s)
  {
    if |s| == 0 || |s| > 500 || s[0] != '/' || (|s| >= 2 && s[1] == '/') {
      return false;
    }
    var i := 0;
    while i < |s|
      invariant 0 <= i <= |s|
      invariant forall k :: 0 <= k < i ==> !IsSpace(s[k]) && s[k] != '?' && s[k] != '#'
    {
      if IsSpace(s[i]) || s[i] == '?' || s[i] == '#' {
        assert s[i] in s;
        return false;
      }
      i := i + 1;
    }
    return true;
  }

  method ValidateApplication(c: Config) returns (ok: bool)
    ensures ok <==> ApplicationAccepted(c)
  {
    if c.startCommand.Some? {
      var stored := IsStoredCommand(c.startCommand.value);
      if !stored {
        return false;
      }
    }
    if c.applicationPort.Some? && (c.applicationPort.value < 1_024 || c.applicationPort.value > 65_535) {
      return false;
    }
    if c.healthCheckPath.Some? {
      var valid := IsHealthPath(c.healthCheckPath.value);
      if !valid {
        return false;
      }
    }
    var any := c.startCommand.Some? || c.applicationPort.Some? || c.healthCheckPath.Some?;
    var all := c.startCommand.Some? && c.applicationPort.Some? && c.healthCheckPath.Some?;
    if any && !all {
      return false;
    }
    if c.healthCheckTimeoutMs < 5_000 || c.healthCheckTimeoutMs > 600_000 {
      return false;
    }
    return 60_000 <= c.previewTtlMs && c.previewTtlMs <= 900_000;
  }

  /** Which of the two kinds of secrets there are. */
  method FindSecrets(bindings: seq<SecretBinding>) returns (runtime: bool, test: bool)
    ensures runtime <==> exists b :: b in bindings && b.exposure == "runtime"
    ensures test <==> exists b :: b in bindings && b.exposure == "test"
  {
    runtime, test := false, false;
    var i := 0;
    while i < |bindings|
      invariant 0 <= i <= |bindings|
      invariant runtime <==> exists k :: 0 <= k < i && bindings[k].exposure == "runtime"
      invariant test <==> exists k :: 0 <= k < i && bindings[k].exposure == "test"
    {
      if bindings[i].exposure == "runtime" {
        runtime := true;
      }
      if bindings[i].exposure == "test" {
        test := true;
      }
      i := i + 1;
    }
  }

  lemma SecretsFound(c: Config, runtime: bool, test: bool)
    requires runtime <==> exists b :: b in c.secretBindings && b.exposure == "runtime"
    requires test <==> exists b :: b in c.secretBindings && b.exposure == "test"
    ensures HasRuntimeSecret(c) <==> runtime
    ensures HasExecutionSecret(c) <==> runtime || test
  {
    if runtime {
      var b :| b in c.secretBindings && b.exposure == "runtime";
      assert RuntimeSecret(b) && ExecutionSecret(b);
    }
    if test {
      var b :| b in c.secretBindings && b.exposure == "test";
      assert ExecutionSecret(b);
    }
    if HasExecutionSecret(c) {
      var b :| b in c.secretBindings && ExecutionSecret(b);
    }
  }

  method ValidateBrowserTool(cat: Catalogue, c: Config) returns (ok: bool)
    ensures ok <==> BrowserAccepted(cat, c)
  {
    var name := ManagerName(c.packageManager);
    var immutableBoot := (c.tenkiImage.Some? && c.tenkiImage.value != []) || (c.tenkiSnapshotId.Some? && c.tenkiSnapshotId.value != []);
    var repository := false;
    if name in cat.installs {
      repository := Command(cat.installs[name]) in c.installCommands;
    }
    if !c.automaticInstall || Command(cat.preflight) !in c.installCommands {
      return false;
    }
    if immutableBoot && repository {
      return false;
    }
    if !immutableBoot {
      if !repository || !c.allowOutbound {
        return false;
      }
    }
    return true;
  }

  method ValidateRuntimeConfig(cat: Catalogue, c: Config, checks: ItemChecks) returns (ok: bool)
    ensures ok <==> Accepts(cat, c, checks)
  {
    var install := AreStoredCommands(c.installCommands);
    var build := AreStoredCommands(c.buildCommands);
    if !install || !build {
      return false;
    }
    if (c.automaticInstall && |c.installCommands| == 0) || (c.automaticBuild && |c.buildCommands| == 0) {
      return false;
    }
    var environment := ValidateEnvironment(c.publicEnvironment, c.secretBindings, checks.variable, checks.binding);
    var application := ValidateApplication(c);
    if !environment || !application {
      return false;
    }
    if (c.runtimeTools.http || c.runtimeTools.browser || c.runtimeTools.logs) && c.startCommand.None? {
      return false;
    }
    var runtime, test := FindSecrets(c.secretBindings);
    SecretsFound(c, runtime, test);
    if c.previewEnabled && (!c.allowInbound || runtime) {
      return false;
    }
    if c.allowOutbound && (runtime || test) {
      return false;
    }
    if c.runtimeTools.browser {
      ok := ValidateBrowserTool(cat, c);
      return;
    }
    return true;
  }

  // ----- The editor

  datatype Lookup = Missing | NotACommand | Found(command: string)

  /** The editor's lookup also answers for the names its table inherits, with a value that is no string. */
  function InstallCommand(cat: Catalogue, packageManager: string): Lookup {
    var name := ManagerName(packageManager);
    if name in cat.installs then Found(cat.installs[name])
    else if Inherited(name) then NotACommand
    else Missing
  }

  predicate BrowserCommand(cat: Catalogue, e: Entry) {
    e.Command? && (e.text == cat.preflight || cat.IsInstall(Trim(e.text)))
  }

  /** The commands that are not browser commands, in order. */
  function Retained(cat: Catalogue, commands: seq<Entry>): seq<Entry> {
    if commands == [] then []
    else (if BrowserCommand(cat, commands[0]) then [] else [commands[0]]) + Retained(cat, commands[1..])
  }

  datatype EditorError = NoProvisioning | SharesSecrets | TooManyCommands

  datatype Edited = Edited(config: Config, error: Option<EditorError>)

  function BrowserCommands(cat: Catalogue, c: Config): seq<Entry> {
    if ImageProvisioned(c) then [Command(cat.preflight)]
    else
      var install := InstallCommand(cat, c.packageManager);
      [if install.Found? then Command(install.command) else NotText, Command(cat.preflight)]
  }

  function ConfigureBrowserInteraction(cat: Catalogue, c: Config, enabled: bool): Edited
    requires AllText(c.installCommands)
  {
    var retained := Retained(cat, c.installCommands);
    if !enabled then
      Edited(c.(installCommands := retained,
                automaticInstall := retained != [] && c.automaticInstall,
                runtimeTools := c.runtimeTools.(browser := false)), None)
    else if !ImageProvisioned(c) && InstallCommand(cat, c.packageManager).Missing? then
      Edited(c, Some(NoProvisioning))
    else if (c.allowOutbound || !ImageProvisioned(c)) && HasExecutionSecret(c) then
      Edited(c, Some(SharesSecrets))
    else if |retained| + |BrowserCommands(cat, c)| > MAX_COMMANDS then
      Edited(c, Some(TooManyCommands))
    else
      Edited(c.(installCommands := retained + BrowserCommands(cat, c),
                automaticInstall := true,
                allowOutbound := c.allowOutbound || !ImageProvisioned(c),
                runtimeTools := c.runtimeTools.(browser := true)), None)
  }

  // ----- Facts about the retained commands

  lemma {:induction false} RetainedFacts(cat: Catalogue, commands: seq<Entry>)
    ensures forall e :: e in Retained(cat, commands) <==> e in commands && !BrowserCommand(cat, e)
    ensures |Retained(cat, commands)| <= |commands|
  {
    if commands != [] {
      RetainedFacts(cat, commands[1..]);
      assert forall e :: e in commands <==> e == commands[0] || e in commands[1..];
    }
  }

  lemma {:induction false} RetainedConcat(cat: Catalogue, a: seq<Entry>, b: seq<Entry>)
    ensures Retained(cat, a + b) == Retained(cat, a) + Retained(cat, b)
  {
    if a == [] {
      assert a + b == b;
    } else {
      assert (a + b)[1..] == a[1..] + b;
      RetainedConcat(cat, a[1..], b);
    }
  }

  lemma {:induction false} RetainedFixed(cat: Catalogue, commands: seq<Entry>)
    ensures Retained(cat, commands) == commands <==> forall e :: e in commands ==> !BrowserCommand(cat, e)
  {
    if commands != [] {
      RetainedFixed(cat, commands[1..]);
      RetainedFacts(cat, commands[1..]);
      AsCons(commands);
      assert forall e :: e in commands <==> e == commands[0] || e in commands[1..];
    }
  }

  lemma RetainedTwice(cat: Catalogue, commands: seq<Entry>)
    ensures Retained(cat, Retained(cat, commands)) == Retained(cat, commands)
  {
    RetainedFacts(cat, commands);
    RetainedFixed(cat, Retained(cat, commands));
  }

  lemma InstallsAreBrowserCommands(cat: Catalogue, name: string)
    requires cat.WellFormed() && name in cat.installs
    ensures BrowserCommand(cat, Command(cat.installs[name])) && cat.installs[name] != cat.preflight
  {
    TrimFacts(cat.installs[name]);
    assert Trim(cat.installs[name]) == cat.installs[name];
    assert cat.IsInstall(cat.installs[name]);
  }

  lemma {:induction false} AllRemoved(cat: Catalogue, commands: seq<Entry>)
    requires forall e :: e in commands ==> BrowserCommand(cat, e)
    ensures Retained(cat, commands) == []
  {
    if commands != [] {
      assert commands[0] in commands;
      AllRemoved(cat, commands[1..]);
    }
  }

  /** The commands the editor adds are the ones it takes away again, unless one is no command. */
  lemma AddedCommandsAreRemoved(cat: Catalogue, c: Config)
    requires cat.WellFormed() && AllText(BrowserCommands(cat, c))
    ensures Retained(cat, Retained(cat, c.installCommands) + BrowserCommands(cat, c)) == Retained(cat, c.installCommands)
  {
    var kept, added := Retained(cat, c.installCommands), BrowserCommands(cat, c);
    forall e | e in added ensures BrowserCommand(cat, e) {
      if e != Command(cat.preflight) {
        assert e == added[0];
        InstallsAreBrowserCommands(cat, ManagerName(c.packageManager));
      }
    }
    AllRemoved(cat, added);
    RetainedConcat(cat, kept, added);
    RetainedTwice(cat, c.installCommands);
  }

  // ----- The editor's output and the runner's check

  lemma RuntimeSecretsAreExecutionSecrets(c: Config)
    ensures HasRuntimeSecret(c) ==> HasExecutionSecret(c)
  {
    if HasRuntimeSecret(c) {
      var b :| b in c.secretBindings && RuntimeSecret(b);
      assert ExecutionSecret(b);
    }
  }

  lemma SameSecrets(a: Config, b: Config)
    requires a.secretBindings == b.secretBindings
    ensures HasExecutionSecret(a) == HasExecutionSecret(b) && HasRuntimeSecret(a) == HasRuntimeSecret(b)
  {
  }

  lemma WrittenNetworkIsAccepted(cat: Catalogue, c: Config)
    requires AllText(c.installCommands) && NetworkAccepted(c)
    requires ConfigureBrowserInteraction(cat, c, true).error.None?
    ensures NetworkAccepted(ConfigureBrowserInteraction(cat, c, true).config)
  {
    var r := ConfigureBrowserInteraction(cat, c, true).config;
    SameSecrets(c, r);
    RuntimeSecretsAreExecutionSecrets(c);
  }

  /** The install commands the editor writes meet the browser rule. */
  lemma WrittenCommandsProvision(cat: Catalogue, c: Config)
    requires cat.WellFormed() && AllText(c.installCommands)
    requires ConfigureBrowserInteraction(cat, c, true).error.None?
    requires AllText(BrowserCommands(cat, c))
    ensures BrowserAccepted(cat, ConfigureBrowserInteraction(cat, c, true).config)
  {
    var kept, added := Retained(cat, c.installCommands), BrowserCommands(cat, c);
    var name := ManagerName(c.packageManager);
    RetainedFacts(cat, c.installCommands);
    if name in cat.installs {
      InstallsAreBrowserCommands(cat, name);
      assert Command(cat.installs[name]) !in kept;
    }
    assert Command(cat.preflight) == added[|added| - 1] && added[0] in kept + added;
    assert Command(cat.preflight) in kept + added;
  }

  lemma WrittenCommandsAreAccepted(cat: Catalogue, c: Config)
    requires cat.WellFormed() && CommandsAccepted(c.installCommands)
    requires ConfigureBrowserInteraction(cat, c, true).error.None?
    ensures AllText(c.installCommands)
    ensures CommandsAccepted(ConfigureBrowserInteraction(cat, c, true).config.installCommands)
       <==> AllText(BrowserCommands(cat, c))
  {
    var kept, added := Retained(cat, c.installCommands), BrowserCommands(cat, c);
    RetainedFacts(cat, c.installCommands);
    var written := kept + added;
    assert forall e :: e in written <==> e in kept || e in added;
    if AllText(added) {
      forall e | e in added ensures EntryAccepted(e) {
        if e != Command(cat.preflight) {
          assert e == added[0];
          assert cat.IsInstall(e.text);
        }
      }
    } else {
      var e :| e in added && !e.Command?;
      assert e in written;
    }
  }

  lemma AddedAreText(cat: Catalogue, c: Config)
    requires AllText(c.installCommands) && ConfigureBrowserInteraction(cat, c, true).error.None? && cat.WellFormed()
    ensures AllText(BrowserCommands(cat, c)) <==> ImageProvisioned(c) || !Inherited(ManagerName(c.packageManager))
  {
    var added := BrowserCommands(cat, c);
    assert added[0] in added;
    var name := ManagerName(c.packageManager);
    assert name in cat.installs ==> !Inherited(name);
  }

  /** From a configuration the runner accepts and that starts an application, switching the browser on
      without an error gives one the runner accepts in full, with at most 30 install commands; the one
      exception is a package manager whose name the table inherits, without an image. */
  lemma EnabledConfigIsAccepted(cat: Catalogue, c: Config, checks: ItemChecks)
    requires cat.WellFormed() && Accepts(cat, c, checks) && c.startCommand.Some?
    requires AllText(c.installCommands) && ConfigureBrowserInteraction(cat, c, true).error.None?
    ensures Accepts(cat, ConfigureBrowserInteraction(cat, c, true).config, checks)
       <==> ImageProvisioned(c) || !Inherited(ManagerName(c.packageManager))
  {
    WrittenCommandsAreAccepted(cat, c);
    AddedAreText(cat, c);
    if AllText(BrowserCommands(cat, c)) {
      WrittenCommandsProvision(cat, c);
      WrittenNetworkIsAccepted(cat, c);
    }
  }

  /** Switching the browser off never spoils an accepted configuration. */
  lemma DisabledConfigIsAccepted(cat: Catalogue, c: Config, checks: ItemChecks)
    requires Accepts(cat, c, checks)
    ensures AllText(c.installCommands)
    ensures Accepts(cat, ConfigureBrowserInteraction(cat, c, false).config, checks)
  {
    RetainedFacts(cat, c.installCommands);
    var r := ConfigureBrowserInteraction(cat, c, false).config;
    assert HasExecutionSecret(r) == HasExecutionSecret(c) && HasRuntimeSecret(r) == HasRuntimeSecret(c);
  }

  /** Switching on twice is switching on once. */
  lemma EnablingIsIdempotent(cat: Catalogue, c: Config)
    requires cat.WellFormed() && AllText(c.installCommands)
    requires AllText(ConfigureBrowserInteraction(cat, c, true).config.installCommands)
    ensures var r := ConfigureBrowserInteraction(cat, c, true);
            r.error.None? ==> ConfigureBrowserInteraction(cat, r.config, true) == r
  {
    var r := ConfigureBrowserInteraction(cat, c, true);
    if r.error.None? {
      var kept, added := Retained(cat, c.installCommands), BrowserCommands(cat, c);
      assert AllText(added) by {
        assert forall e :: e in added ==> e in kept + added;
      }
      AddedCommandsAreRemoved(cat, c);
      assert BrowserCommands(cat, r.config) == added;
      assert HasExecutionSecret(r.config) == HasExecutionSecret(c);
    }
  }

  /** What is left of a configuration after switching the browser on and off again. */
  function OnAndOff(cat: Catalogue, c: Config): Config {
    var kept := Retained(cat, c.installCommands);
    c.(installCommands := kept, automaticInstall := kept != [],
       allowOutbound := c.allowOutbound || !ImageProvisioned(c),
       runtimeTools := c.runtimeTools.(browser := false))
  }

  /** Nothing is lost exactly when there was no browser command and no browser, commands were installed
      automatically if there were any, and the browser needs no network or it was there already. */
  lemma RestoredIff(cat: Catalogue, c: Config)
    ensures OnAndOff(cat, c) == c <==>
            && (forall e :: e in c.installCommands ==> !BrowserCommand(cat, e)) && !c.runtimeTools.browser
            && c.automaticInstall == (c.installCommands != []) && (c.allowOutbound || ImageProvisioned(c))
  {
    RetainedFixed(cat, c.installCommands);
  }

  lemma WrittenIsText(cat: Catalogue, c: Config)
    requires AllText(c.installCommands) && AllText(BrowserCommands(cat, c))
    ensures AllText(Retained(cat, c.installCommands) + BrowserCommands(cat, c))
  {
    RetainedFacts(cat, c.installCommands);
  }

  /** On and then off leaves the other commands, in order, and otherwise what `OnAndOff` says. */
  lemma EnableThenDisable(cat: Catalogue, c: Config)
    requires cat.WellFormed() && AllText(c.installCommands)
    requires ConfigureBrowserInteraction(cat, c, true).error.None? && AllText(BrowserCommands(cat, c))
    ensures var on := ConfigureBrowserInteraction(cat, c, true).config;
            && AllText(on.installCommands)
            && ConfigureBrowserInteraction(cat, on, false).config == OnAndOff(cat, c)
  {
    WrittenIsText(cat, c);
    AddedCommandsAreRemoved(cat, c);
  }

  // ----- The editor finds a configuration whenever there is one

  /** `v` is `c` with the browser on: the other commands stay, in order, network access is not taken
      away, and nothing else differs but what the browser tool needs. */
  ghost predicate BrowserVersion(cat: Catalogue, c: Config, v: Config) {
    && Retained(cat, v.installCommands) == Retained(cat, c.installCommands)
    && (c.allowOutbound ==> v.allowOutbound)
    && v == c.(installCommands := v.installCommands, automaticInstall := v.automaticInstall,
               allowOutbound := v.allowOutbound, runtimeTools := c.runtimeTools.(browser := true))
  }

  function Removed(cat: Catalogue, commands: seq<Entry>): seq<Entry> {
    if commands == [] then []
    else (if BrowserCommand(cat, commands[0]) then [commands[0]] else []) + Removed(cat, commands[1..])
  }

  lemma {:induction false} RemovedFacts(cat: Catalogue, commands: seq<Entry>)
    ensures |Retained(cat, commands)| + |Removed(cat, commands)| == |commands|
    ensures forall e :: e in commands && BrowserCommand(cat, e) ==> e in Removed(cat, commands)
  {
    if commands != [] {
      RemovedFacts(cat, commands[1..]);
      assert forall e :: e in commands <==> e == commands[0] || e in commands[1..];
    }
  }

  /** Any browser version the runner accepts has room for the other commands and the browser's own. */
  lemma VersionsHaveRoom(cat: Catalogue, c: Config, v: Config)
    requires cat.WellFormed() && BrowserVersion(cat, c, v)
    requires BrowserAccepted(cat, v) && |v.installCommands| <= MAX_COMMANDS
    ensures |Retained(cat, c.installCommands)| + |BrowserCommands(cat, c)| <= MAX_COMMANDS
  {
    RemovedFacts(cat, v.installCommands);
    var removed := Removed(cat, v.installCommands);
    var preflight := Command(cat.preflight);
    assert preflight in removed;
    if !ImageProvisioned(c) {
      var name := ManagerName(c.packageManager);
      InstallsAreBrowserCommands(cat, name);
      var install := Command(cat.installs[name]);
      assert install in removed && install != preflight;
      var i :| 0 <= i < |removed| && removed[i] == install;
      var j :| 0 <= j < |removed| && removed[j] == preflight;
      assert i != j;
    }
  }

  lemma VersionsAllowTheEdit(cat: Catalogue, c: Config, v: Config, checks: ItemChecks)
    requires cat.WellFormed() && AllText(c.installCommands)
    requires BrowserVersion(cat, c, v) && Accepts(cat, v, checks)
    ensures ConfigureBrowserInteraction(cat, c, true).error.None?
    ensures ImageProvisioned(c) || !Inherited(ManagerName(c.packageManager))
  {
    SameSecrets(c, v);
    VersionsHaveRoom(cat, c, v);
    assert BrowserAccepted(cat, v) && NetworkAccepted(v);
  }

  lemma EditIsAVersion(cat: Catalogue, c: Config)
    requires cat.WellFormed() && AllText(c.installCommands)
    requires ConfigureBrowserInteraction(cat, c, true).error.None? && AllText(BrowserCommands(cat, c))
    ensures BrowserVersion(cat, c, ConfigureBrowserInteraction(cat, c, true).config)
  {
    AddedCommandsAreRemoved(cat, c);
  }

  /** The editor refuses, or writes something the runner refuses, exactly when every way of switching the
      browser on would be refused. */
  lemma EditorIsComplete(cat: Catalogue, c: Config, checks: ItemChecks)
    requires cat.WellFormed() && Accepts(cat, c, checks) && c.startCommand.Some? && AllText(c.installCommands)
    ensures var r := ConfigureBrowserInteraction(cat, c, true);
            r.error.None? && Accepts(cat, r.config, checks)
            <==> exists v :: BrowserVersion(cat, c, v) && Accepts(cat, v, checks)
  {
    var r := ConfigureBrowserInteraction(cat, c, true);
    if r.error.None? {
      EnabledConfigIsAccepted(cat, c, checks);
      AddedAreText(cat, c);
      if Accepts(cat, r.config, checks) {
        EditIsAVersion(cat, c);
      }
    }
    forall v | BrowserVersion(cat, c, v) && Accepts(cat, v, checks)
      ensures r.error.None? && Accepts(cat, r.config, checks)
    {
      VersionsAllowTheEdit(cat, c, v, checks);
      EnabledConfigIsAccepted(cat, c, checks);
    }
  }

  // ----- Where it fails

  lemma {:induction false} LowerFixed(s: string)
    requires forall k :: 0 <= k < |s| ==> !('A' <= s[k] <= 'Z')
    ensures Lower(s) == s
  {
    if s != [] {
      LowerFixed(s[1..]);
      AsCons(s);
    }
  }

  predicate Letters(s: string) { s != [] && forall k :: 0 <= k < |s| ==> 'a' <= s[k] <= 'z' }

  lemma LettersAreTrimmed(name: string)
    requires Letters(name)
    ensures Trim(name) == name && '@' !in name
  {
    TrimFacts(name);
  }

  lemma PlainName(name: string)
    requires Letters(name)
    ensures ManagerName(name) == name
  {
    LettersAreTrimmed(name);
    LowerFixed(name);
    SplitWord(name, '@');
  }

  /** A bare configuration that starts an application under some package manager. */
  function Bare(packageManager: string): Config {
    Config(packageManager, [], [], false, false, false, false, false, None, None, [], [],
           Some("serve"), Some(3_000), Some("/"), 5_000, 60_000, RuntimeTools(true, false, false))
  }

  lemma BareIsAccepted(cat: Catalogue, packageManager: string, checks: ItemChecks)
    ensures Accepts(cat, Bare(packageManager), checks)
  {
    assert CommandAccepted("serve");
    assert HealthPath("/");
  }

  /** With a package manager of an inherited name the editor reports no error and writes a list with a
      value that is no command, which the runner refuses. */
  lemma InheritedNameSlipsThrough(cat: Catalogue, name: string, checks: ItemChecks)
    requires cat.WellFormed() && Inherited(name) && Letters(name)
    ensures var r := ConfigureBrowserInteraction(cat, Bare(name), true);
            r.error.None? && Accepts(cat, Bare(name), checks) && !Accepts(cat, r.config, checks)
  {
    var c := Bare(name);
    BareIsAccepted(cat, name, checks);
    PlainName(name);
    assert InstallCommand(cat, c.packageManager).NotACommand?;
    assert !HasExecutionSecret(c) && Retained(cat, c.installCommands) == [];
    EnabledConfigIsAccepted(cat, c, checks);
  }

  /** "constructor" is such a name. */
  lemma ConstructorSlipsThrough(cat: Catalogue, checks: ItemChecks)
    requires cat.WellFormed()
    ensures exists c :: Accepts(cat, c, checks) && c.startCommand.Some? && AllText(c.installCommands)
              && var r := ConfigureBrowserInteraction(cat, c, true);
                 r.error.None? && !Accepts(cat, r.config, checks)
  {
    var name := "constructor";
    assert Letters(name);
    InheritedNameSlipsThrough(cat, name, checks);
  }
}
