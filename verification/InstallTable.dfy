/** The table of browser commands that the editor and the runner both hold. */
module InstallTable {
  import opened Browser

  const LAUNCH_A := "node -e \"let c;try{c=require('playwr"
  const LAUNCH_B := "ight').chromium}catch{c=require('@pl"
  const LAUNCH_C := "aywright/test').chromium}(async()=>{"
  const LAUNCH_D := "const b=await c.launch({headless:tru"
  const LAUNCH_E := "e});const x=await b.newContext({serv"
  const LAUNCH_F := "iceWorkers:'block'});if(typeof x.rou"
  const LAUNCH_G := "teWebSocket!=='function')throw new E"
  const LAUNCH_H := "rror('Playwright WebSocket routing i"
  const LAUNCH_I := "s unavailable');await x.close();awai"
  const LAUNCH_J := "t b.close()})().catch(e=>{console.er"
  const LAUNCH_K := "ror(e instanceof Error?e.message:Str"
  const LAUNCH_L := "ing(e));process.exit(1)})\""

  const NPM_INSTALL := "npm exec -- playwright install chromium"
  const PNPM_INSTALL := "pnpm exec playwright install chromium"
  const YARN_INSTALL := "yarn exec playwright install chromium"
  const BUN_INSTALL := "bunx playwright install chromium"

  function Launch1(): string { LAUNCH_A + LAUNCH_B + LAUNCH_C }

  function Launch2(): string { LAUNCH_D + LAUNCH_E + LAUNCH_F }

  function Launch3(): string { LAUNCH_G + LAUNCH_H + LAUNCH_I }

  function Launch4(): string { LAUNCH_J + LAUNCH_K + LAUNCH_L }

  function Launch(): string { Launch1() + Launch2() + Launch3() + Launch4() }

  function Shared(): Catalogue {
    Catalogue(Launch(),
              map["npm" := NPM_INSTALL, "pnpm" := PNPM_INSTALL, "yarn" := YARN_INSTALL, "bun" := BUN_INSTALL])
  }

  /** A short piece of printable text. */
  predicate Printable(s: string, most: nat) { 0 < |s| <= most && forall k :: 0 <= k < |s| ==> ' ' <= s[k] }

  lemma Glue(a: string, b: string, c: string, most: nat)
    requires Printable(a, most) && Printable(b, most) && Printable(c, most)
    ensures Printable(a + b + c, 3 * most)
    ensures (a + b + c)[..|a|] == a && (a + b + c)[|a + b|..] == c
  {
  }

  lemma Part1()
    ensures Printable(Launch1(), 120)
  {
    Glue(LAUNCH_A, LAUNCH_B, LAUNCH_C, 40);
  }

  lemma Part2()
    ensures Printable(Launch2(), 120)
  {
    Glue(LAUNCH_D, LAUNCH_E, LAUNCH_F, 40);
  }

  lemma Part3()
    ensures Printable(Launch3(), 120)
  {
    Glue(LAUNCH_G, LAUNCH_H, LAUNCH_I, 40);
  }

  lemma Part4()
    ensures Printable(Launch4(), 120)
  {
    Glue(LAUNCH_J, LAUNCH_K, LAUNCH_L, 40);
  }

  lemma PieceEnds()
    ensures |LAUNCH_A| > 1 && LAUNCH_A[0] == 'n' && LAUNCH_A[1] == 'o'
    ensures |LAUNCH_L| > 0 && LAUNCH_L[|LAUNCH_L| - 1] == '"'
  {
  }

  lemma PartEnds()
    ensures |Launch1()| > 1 && Launch1()[0] == 'n' && Launch1()[1] == 'o'
    ensures |Launch4()| > 0 && Launch4()[|Launch4()| - 1] == '"'
  {
    PieceEnds();
    PrefixOf(LAUNCH_A, LAUNCH_B + LAUNCH_C);
    SuffixOf(LAUNCH_J + LAUNCH_K, LAUNCH_L);
    assert Launch1() == LAUNCH_A + (LAUNCH_B + LAUNCH_C);
  }

  lemma PrefixOf(a: string, b: string)
    requires |a| > 1
    ensures |a + b| > 1 && (a + b)[0] == a[0] && (a + b)[1] == a[1]
  {
  }

  lemma SuffixOf(a: string, b: string)
    requires |b| > 0
    ensures |a + b| > 0 && (a + b)[|a + b| - 1] == b[|b| - 1]
  {
  }

  lemma PreflightFacts(a: string, b: string, c: string, d: string)
    requires Printable(a, 120) && Printable(b, 120) && Printable(c, 120) && Printable(d, 120)
    requires |a| > 1 && a[0] == 'n' && a[1] == 'o' && d[|d| - 1] == '"'
    ensures var p := a + b + c + d; CommandAccepted(p) && |p| > 1 && p[0] == 'n' && p[1] == 'o'
  {
  }

  lemma LaunchFacts()
    ensures CommandAccepted(Launch()) && |Launch()| > 1 && Launch()[0] == 'n' && Launch()[1] == 'o'
  {
    Part1();
    Part2();
    Part3();
    Part4();
    PartEnds();
    PreflightFacts(Launch1(), Launch2(), Launch3(), Launch4());
  }

  lemma InstallFacts(install: string)
    requires Printable(install, 41) && install[0] != ' ' && install[|install| - 1] != ' '
    ensures CommandAccepted(install)
  {
  }

  lemma NpmInstall() ensures CommandAccepted(NPM_INSTALL) && NPM_INSTALL[0] == 'n' && NPM_INSTALL[1] == 'p'
  {
    InstallFacts(NPM_INSTALL);
  }

  lemma PnpmInstall() ensures CommandAccepted(PNPM_INSTALL) && PNPM_INSTALL[0] == 'p'
  {
    InstallFacts(PNPM_INSTALL);
  }

  lemma YarnInstall() ensures CommandAccepted(YARN_INSTALL) && YARN_INSTALL[0] == 'y'
  {
    InstallFacts(YARN_INSTALL);
  }

  lemma BunInstall() ensures CommandAccepted(BUN_INSTALL) && BUN_INSTALL[0] == 'b'
  {
    InstallFacts(BUN_INSTALL);
  }

  lemma WellFormedTable(preflight: string, npm: string, pnpm: string, yarn: string, bun: string)
    requires CommandAccepted(preflight) && |preflight| > 1 && preflight[0] == 'n' && preflight[1] == 'o'
    requires CommandAccepted(npm) && CommandAccepted(pnpm) && CommandAccepted(yarn) && CommandAccepted(bun)
    requires |npm| > 1 && npm[0] == 'n' && npm[1] == 'p' && pnpm[0] == 'p' && yarn[0] == 'y' && bun[0] == 'b'
    ensures Catalogue(preflight, map["npm" := npm, "pnpm" := pnpm, "yarn" := yarn, "bun" := bun]).WellFormed()
  {
  }

  /** The table both processes hold is sound. */
  lemma SharedIsWellFormed()
    ensures Shared().WellFormed()
  {
    LaunchFacts();
    NpmInstall();
    PnpmInstall();
    YarnInstall();
    BunInstall();
    WellFormedTable(Launch(), NPM_INSTALL, PNPM_INSTALL, YARN_INSTALL, BUN_INSTALL);
  }

  /** With that table: from a configuration the runner accepts and that starts an application, the editor's
      browser switch, when it reports no error, gives one the runner accepts in full, except for a package
      manager of an inherited name without an image. */
  lemma EnabledWithSharedTable(c: Config, checks: ItemChecks)
    requires Accepts(Shared(), c, checks) && c.startCommand.Some? && AllText(c.installCommands)
    requires ConfigureBrowserInteraction(Shared(), c, true).error.None?
    ensures Accepts(Shared(), ConfigureBrowserInteraction(Shared(), c, true).config, checks)
       <==> ImageProvisioned(c) || !Inherited(ManagerName(c.packageManager))
  {
    SharedIsWellFormed();
    EnabledConfigIsAccepted(Shared(), c, checks);
  }

  /** And what the editor cannot enable, no other switch could have. */
  lemma CompleteWithSharedTable(c: Config, checks: ItemChecks)
    requires Accepts(Shared(), c, checks) && c.startCommand.Some? && AllText(c.installCommands)
    ensures var r := ConfigureBrowserInteraction(Shared(), c, true);
            r.error.None? && Accepts(Shared(), r.config, checks)
            <==> exists v :: BrowserVersion(Shared(), c, v) && Accepts(Shared(), v, checks)
  {
    SharedIsWellFormed();
    EditorIsComplete(Shared(), c, checks);
  }
}
