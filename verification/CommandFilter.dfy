/**
 The rewrite rules of rtk/filter_engine.go: which flags each rule appends to a
 command, how a command is dispatched to its rule, and what rewriting does to the
 tokens of the command.
 */
module CommandFilter {
  import opened Text
  import opened CommandLexer

  datatype Tool = Git | Cargo | Npm | Docker | Go

  datatype Rule =
    | GitClone | GitPush | GitPull | GitLog | GitStatus | GitDiff
    | CargoBuild | CargoTest | CargoCheck
    | NpmInstall | NpmRun | NpmTest | NpmBuild
    | DockerBuild | DockerRun | DockerPs | DockerImages
    | GoBuild | GoTest | GoFmt | GoVet

  datatype FilterConfig = FilterConfig(git: bool, cargo: bool, npm: bool, docker: bool, go: bool)

  datatype FilterResult = FilterResult(shouldOptimize: bool, originalCommand: string, optimizedCommand: string)

  function ToolName(tool: Tool): string {
    match tool
    case Git => "git" case Cargo => "cargo" case Npm => "npm" case Docker => "docker" case Go => "go"
  }

  // ----- The rules

  predicate HasFlag(tokens: seq<Token>, flag: string) {
    exists i :: 0 <= i < |tokens| && tokens[i].kind == Flag && flag <= tokens[i].value
  }

  function Unless(present: bool, addition: string): seq<string> {
    if present then [] else [addition]
  }

  /** The texts a rule appends to the command; a rule that appends nothing suggests nothing. */
  function Additions(rule: Rule, ts: seq<Token>): seq<string> {
    match rule
    case GitClone =>
      Unless(HasFlag(ts, "--depth"), "--depth=1")
      + Unless(HasFlag(ts, "--single-branch"), "--single-branch")
    case GitPush => Unless(HasFlag(ts, "--quiet") || HasFlag(ts, "-q"), "--quiet")
    case GitPull => Unless(HasFlag(ts, "--rebase") || HasFlag(ts, "-r"), "--rebase")
    case GitLog => Unless(HasFlag(ts, "-n") || HasFlag(ts, "--oneline"), "--oneline -20")
    case GitStatus => Unless(HasFlag(ts, "-s") || HasFlag(ts, "--short"), "-s")
    case GitDiff => Unless(HasFlag(ts, "--stat"), "--stat")
    case CargoBuild =>
      Unless(HasFlag(ts, "--jobs") || HasFlag(ts, "-j"), "-j 4")
      + Unless(HasFlag(ts, "--locked"), "--locked")
    case CargoTest => Unless(HasFlag(ts, "--no-fail-fast"), "--no-fail-fast")
    case CargoCheck => Unless(HasFlag(ts, "--all-targets"), "--all-targets")
    case NpmInstall =>
      Unless(HasFlag(ts, "--prefer-offline"), "--prefer-offline")
      + (if HasFlag(ts, "--save-dev") || HasFlag(ts, "-D")
         then Unless(HasFlag(ts, "--ignore-scripts"), "--ignore-scripts") else [])
      + Unless(HasFlag(ts, "--no-audit"), "--no-audit")
    case NpmRun => Unless(HasFlag(ts, "--if-present"), "--if-present")
    case NpmTest => Unless(HasFlag(ts, "--runInBand") || HasFlag(ts, "-r"), "--runInBand")
    case NpmBuild => Unless(HasFlag(ts, "--ignore-scripts"), "--ignore-scripts")
    case DockerBuild =>
      Unless(HasFlag(ts, "--no-cache") || HasFlag(ts, "--pull"), "--pull")
      + Unless(HasFlag(ts, "--compress"), "--compress")
    case DockerRun =>
      Unless(HasFlag(ts, "--rm"), "--rm")
      + Unless(HasFlag(ts, "--network"), "--network host")
    case DockerPs => Unless(HasFlag(ts, "-q") || HasFlag(ts, "--quiet"), "-q")
    case DockerImages => Unless(HasFlag(ts, "-q") || HasFlag(ts, "--quiet"), "-q")
    case GoBuild =>
      // verbose already: suggested again unless doubly verbose; not verbose: suggested
      if HasFlag(ts, "-v") && !HasFlag(ts, "-vv") then ["-v"]
      else if !HasFlag(ts, "-v") then ["-v"]
      else []
    case GoTest =>
      Unless(HasFlag(ts, "-short"), "-short")
      + Unless(HasFlag(ts, "-count=1"), "-count=1")
    case GoFmt => Unless(HasFlag(ts, "-l"), "-l")
    case GoVet => Unless(HasFlag(ts, "-v"), "-v")
  }

  /** The push rule rebuilds the command from its first two tokens only. */
  function Suggestion(rule: Rule, ts: seq<Token>, additions: seq<string>): FilterResult
    requires |ts| >= 2
  {
    var original := JoinTokens(ts);
    if additions == [] then FilterResult(false, original, original)
    else
      var kept := if rule == GitPush then ts[0].value + " " + ts[1].value else original;
      FilterResult(true, original, kept + " " + Join(additions, ' '))
  }

  /** One `optimize*` function. */
  function Optimize(rule: Rule, ts: seq<Token>): FilterResult
    requires |ts| >= 2
  {
    Suggestion(rule, ts, Additions(rule, ts))
  }

  // ----- Dispatch

  function RuleFor(tool: Tool, sub: string): Option<Rule> {
    match tool
    case Git =>
      if sub == "clone" then Some(GitClone) else if sub == "push" then Some(GitPush)
      else if sub == "pull" then Some(GitPull) else if sub == "log" then Some(GitLog)
      else if sub == "status" then Some(GitStatus) else if sub == "diff" then Some(GitDiff) else None
    case Cargo =>
      if sub == "build" then Some(CargoBuild) else if sub == "test" then Some(CargoTest)
      else if sub == "check" then Some(CargoCheck) else None
    case Npm =>
      if sub == "install" then Some(NpmInstall) else if sub == "run" then Some(NpmRun)
      else if sub == "test" then Some(NpmTest) else if sub == "build" then Some(NpmBuild) else None
    case Docker =>
      if sub == "build" then Some(DockerBuild) else if sub == "run" then Some(DockerRun)
      else if sub == "ps" then Some(DockerPs) else if sub == "images" then Some(DockerImages) else None
    case Go =>
      if sub == "build" then Some(GoBuild) else if sub == "test" then Some(GoTest)
      else if sub == "fmt" then Some(GoFmt) else if sub == "vet" then Some(GoVet) else None
  }

  function ToolOf(rule: Rule): Tool {
    match rule
    case GitClone | GitPush | GitPull | GitLog | GitStatus | GitDiff => Git
    case CargoBuild | CargoTest | CargoCheck => Cargo
    case NpmInstall | NpmRun | NpmTest | NpmBuild => Npm
    case DockerBuild | DockerRun | DockerPs | DockerImages => Docker
    case GoBuild | GoTest | GoFmt | GoVet => Go
  }

  function SubcommandOf(rule: Rule): string {
    match rule
    case GitClone => "clone" case GitPush => "push" case GitPull => "pull"
    case GitLog => "log" case GitStatus => "status" case GitDiff => "diff"
    case CargoBuild => "build" case CargoTest => "test" case CargoCheck => "check"
    case NpmInstall => "install" case NpmRun => "run" case NpmTest => "test" case NpmBuild => "build"
    case DockerBuild => "build" case DockerRun => "run" case DockerPs => "ps" case DockerImages => "images"
    case GoBuild => "build" case GoTest => "test" case GoFmt => "fmt" case GoVet => "vet"
  }

  lemma GitDispatchIsExact(sub: string, rule: Rule)
    ensures RuleFor(Git, sub) == Some(rule) <==> ToolOf(rule) == Git && sub == SubcommandOf(rule)
  {
    assert "push"[0] == 'p' && "clone"[0] == 'c' && "pull"[2] == 'l' && "push"[2] == 's' && "diff"[0] == 'd';
  }

  /** Dispatch sends a subcommand to the rule of that tool and name, and to no other. */
  lemma DispatchIsExact(tool: Tool, sub: string, rule: Rule)
    ensures RuleFor(tool, sub) == Some(rule) <==> tool == ToolOf(rule) && sub == SubcommandOf(rule)
  {
    match tool
    case Git => GitDispatchIsExact(sub, rule);
    case Cargo => assert "test"[0] == 't' && "check"[0] == 'c' && "build"[0] == 'b';
    case Npm => assert "test"[0] == 't' && "run"[0] == 'r' && "build"[0] == 'b' && "install"[0] == 'i';
    case Docker => assert "run"[0] == 'r' && "ps"[0] == 'p' && "build"[0] == 'b' && "images"[0] == 'i';
    case Go => assert "test"[0] == 't' && "fmt"[0] == 'f' && "vet"[0] == 'v' && "build"[0] == 'b';
  }

  /** The rule a tool's filter applies to a command, if any. */
  function MatchedRule(tool: Tool, cmd: string): Option<Rule> {
    var ts := Tokens(cmd);
    if |ts| < 2 || ToLower(ts[0].value) != ToolName(tool) then None
    else RuleFor(tool, ToLower(ts[1].value))
  }

  function Unoptimized(cmd: string): FilterResult {
    FilterResult(false, cmd, "")
  }

  /** `FilterGit`, `FilterCargo`, `FilterNPM`, `FilterDocker` and `FilterGo`. */
  function FilterTool(tool: Tool, cmd: string): FilterResult {
    match MatchedRule(tool, cmd)
    case Some(rule) => Optimize(rule, Tokens(cmd))
    case None => Unoptimized(cmd)
  }

  predicate Enabled(config: FilterConfig, tool: Tool) {
    match tool
    case Git => config.git case Cargo => config.cargo case Npm => config.npm
    case Docker => config.docker case Go => config.go
  }

  function DetectTool(config: FilterConfig, first: string): Option<Tool> {
    if first == "git" && config.git then Some(Git)
    else if first == "cargo" && config.cargo then Some(Cargo)
    else if first == "npm" && config.npm then Some(Npm)
    else if first == "docker" && config.docker then Some(Docker)
    else if first == "go" && config.go then Some(Go)
    else None
  }

  /** `Filter`: the tool is recognised by the text before the first space character. */
  function Filter(config: FilterConfig, raw: string): FilterResult {
    var cmd := TrimSpace(raw);
    if cmd == "" then Unoptimized(cmd)
    else
      match DetectTool(config, ToLower(Split(cmd, ' ')[0]))
      case Some(tool) => FilterTool(tool, cmd)
      case None => Unoptimized(cmd)
  }

  // ----- What appended words do to flags

  ghost predicate HasPrefixWord(ws: seq<string>, flag: string) {
    exists i :: 0 <= i < |ws| && flag <= ws[i]
  }

  /** A flag test looks at the words alone: positions and token types do not matter. */
  lemma HasFlagOfWords(ws: seq<string>, flag: string)
    requires flag != "" && flag[0] == '-'
    ensures HasFlag(Typed(ws), flag) <==> HasPrefixWord(ws, flag)
  {
  }

  lemma HasFlagAppend(ws: seq<string>, more: seq<string>, flag: string)
    requires flag != "" && flag[0] == '-'
    ensures HasFlag(Typed(ws + more), flag) <==> HasFlag(Typed(ws), flag) || HasPrefixWord(more, flag)
  {
    HasFlagOfWords(ws, flag);
    HasFlagOfWords(ws + more, flag);
    var all := ws + more;
    if HasPrefixWord(ws, flag) {
      var i :| 0 <= i < |ws| && flag <= ws[i];
      assert flag <= all[i];
    }
    if HasPrefixWord(more, flag) {
      var i :| 0 <= i < |more| && flag <= more[i];
      assert flag <= all[|ws| + i];
    }
    if HasPrefixWord(all, flag) {
      var i :| 0 <= i < |all| && flag <= all[i];
      assert if i < |ws| then flag <= ws[i] else flag <= more[i - |ws|];
    }
  }

  // ----- The rules as a table

  /** One addition of a rule: its words, the flags that suppress it, and the flags it depends on. */
  datatype Item = Item(words: seq<string>, unless: seq<string>, onlyIf: seq<string>)

  ghost function Items(rule: Rule): seq<Item> {
    match rule
    case GitClone =>
      [Item(["--depth=1"], ["--depth"], []), Item(["--single-branch"], ["--single-branch"], [])]
    case GitPush => [Item(["--quiet"], ["--quiet", "-q"], [])]
    case GitPull => [Item(["--rebase"], ["--rebase", "-r"], [])]
    case GitLog => [Item(["--oneline", "-20"], ["--oneline", "-n"], [])]
    case GitStatus => [Item(["-s"], ["-s", "--short"], [])]
    case GitDiff => [Item(["--stat"], ["--stat"], [])]
    case CargoBuild => [Item(["-j", "4"], ["-j", "--jobs"], []), Item(["--locked"], ["--locked"], [])]
    case CargoTest => [Item(["--no-fail-fast"], ["--no-fail-fast"], [])]
    case CargoCheck => [Item(["--all-targets"], ["--all-targets"], [])]
    case NpmInstall =>
      [Item(["--prefer-offline"], ["--prefer-offline"], []),
       Item(["--ignore-scripts"], ["--ignore-scripts"], ["--save-dev", "-D"]),
       Item(["--no-audit"], ["--no-audit"], [])]
    case NpmRun => [Item(["--if-present"], ["--if-present"], [])]
    case NpmTest => [Item(["--runInBand"], ["--runInBand", "-r"], [])]
    case NpmBuild => [Item(["--ignore-scripts"], ["--ignore-scripts"], [])]
    case DockerBuild =>
      [Item(["--pull"], ["--pull", "--no-cache"], []), Item(["--compress"], ["--compress"], [])]
    case DockerRun => [Item(["--rm"], ["--rm"], []), Item(["--network", "host"], ["--network"], [])]
    case DockerPs => [Item(["-q"], ["-q", "--quiet"], [])]
    case DockerImages => [Item(["-q"], ["-q", "--quiet"], [])]
    case GoBuild => [Item(["-v"], ["-vv"], [])]
    case GoTest => [Item(["-short"], ["-short"], []), Item(["-count=1"], ["-count=1"], [])]
    case GoFmt => [Item(["-l"], ["-l"], [])]
    case GoVet => [Item(["-v"], ["-v"], [])]
  }

  ghost predicate HasAny(ts: seq<Token>, flags: seq<string>) {
    exists i :: 0 <= i < |flags| && HasFlag(ts, flags[i])
  }

  ghost predicate Applies(item: Item, ts: seq<Token>) {
    !HasAny(ts, item.unless) && (item.onlyIf == [] || HasAny(ts, item.onlyIf))
  }

  ghost function AppliedItems(items: seq<Item>, ts: seq<Token>): seq<string> {
    if items == [] then []
    else (if Applies(items[0], ts) then [Join(items[0].words, ' ')] else []) + AppliedItems(items[1..], ts)
  }

  lemma SingleItem(ts: seq<Token>, words: seq<string>, f: string, g: string)
    ensures AppliedItems([Item(words, [f], [])], ts) == Unless(HasFlag(ts, f), Join(words, ' '))
    ensures AppliedItems([Item(words, [f, g], [])], ts) == Unless(HasFlag(ts, f) || HasFlag(ts, g), Join(words, ' '))
  {
    HasAnyDisplay(ts, f, g);
    var a, b := Item(words, [f], []), Item(words, [f, g], []);
    assert [a][1..] == [] && [b][1..] == [];
  }

  lemma TwoWords(a: string, b: string)
    ensures Join([a, b], ' ') == a + " " + b
  {
  }

  /** The additions that are two words. */
  lemma SpacedTexts()
    ensures Join(["--oneline", "-20"], ' ') == "--oneline -20"
    ensures Join(["-j", "4"], ' ') == "-j 4"
    ensures Join(["--network", "host"], ' ') == "--network host"
  {
  }

  lemma HasAnyDisplay(ts: seq<Token>, f: string, g: string)
    ensures HasAny(ts, [f]) <==> HasFlag(ts, f)
    ensures HasAny(ts, [f, g]) <==> HasFlag(ts, f) || HasFlag(ts, g)
  {
    assert HasFlag(ts, [f][0]) == HasFlag(ts, f);
    assert HasFlag(ts, [f, g][0]) == HasFlag(ts, f) && HasFlag(ts, [f, g][1]) == HasFlag(ts, g);
  }

  lemma PairOfItems(ts: seq<Token>, a: Item, b: Item)
    ensures AppliedItems([a, b], ts) == AppliedItems([a], ts) + AppliedItems([b], ts)
  {
  }

  lemma TwoFlagRule(ts: seq<Token>, wa: seq<string>, fa: string, ga: string, wb: seq<string>, fb: string)
    ensures AppliedItems([Item(wa, [fa], []), Item(wb, [fb], [])], ts)
         == Unless(HasFlag(ts, fa), Join(wa, ' ')) + Unless(HasFlag(ts, fb), Join(wb, ' '))
    ensures AppliedItems([Item(wa, [fa, ga], []), Item(wb, [fb], [])], ts)
         == Unless(HasFlag(ts, fa) || HasFlag(ts, ga), Join(wa, ' ')) + Unless(HasFlag(ts, fb), Join(wb, ' '))
  {
    SingleItem(ts, wa, fa, ga);
    SingleItem(ts, wb, fb, fb);
    PairOfItems(ts, Item(wa, [fa], []), Item(wb, [fb], []));
    PairOfItems(ts, Item(wa, [fa, ga], []), Item(wb, [fb], []));
  }

  lemma ConditionalItem(ts: seq<Token>, w: string, f: string, g: string, h: string)
    ensures AppliedItems([Item([w], [f], [g, h])], ts)
         == if HasFlag(ts, g) || HasFlag(ts, h) then Unless(HasFlag(ts, f), w) else []
  {
    HasAnyDisplay(ts, f, f);
    HasAnyDisplay(ts, g, h);
    assert [Item([w], [f], [g, h])][1..] == [];
  }

  lemma ThreeFlagRule(ts: seq<Token>, a: string, b: string, g: string, h: string, c: string)
    ensures AppliedItems([Item([a], [a], []), Item([b], [b], [g, h]), Item([c], [c], [])], ts)
         == Unless(HasFlag(ts, a), a)
            + (if HasFlag(ts, g) || HasFlag(ts, h) then Unless(HasFlag(ts, b), b) else [])
            + Unless(HasFlag(ts, c), c)
  {
    SingleItem(ts, [a], a, a);
    ConditionalItem(ts, b, b, g, h);
    SingleItem(ts, [c], c, c);
    TripleOfItems(ts, Item([a], [a], []), Item([b], [b], [g, h]), Item([c], [c], []));
  }

  lemma TripleOfItems(ts: seq<Token>, a: Item, b: Item, c: Item)
    ensures AppliedItems([a, b, c], ts)
         == AppliedItems([a], ts) + AppliedItems([b], ts) + AppliedItems([c], ts)
  {
  }

  lemma NpmInstallTable(ts: seq<Token>)
    ensures Additions(NpmInstall, ts) == AppliedItems(Items(NpmInstall), ts)
  {
    ThreeFlagRule(ts, "--prefer-offline", "--ignore-scripts", "--save-dev", "-D", "--no-audit");
  }

  lemma GitTable(rule: Rule, ts: seq<Token>)
    requires rule in {GitClone, GitPush, GitPull, GitLog, GitStatus, GitDiff}
    ensures Additions(rule, ts) == AppliedItems(Items(rule), ts)
  {
    hide HasFlag, AppliedItems;
    match rule
    case GitClone => TwoFlagRule(ts, ["--depth=1"], "--depth", "", ["--single-branch"], "--single-branch");
    case GitPush => SingleItem(ts, ["--quiet"], "--quiet", "-q");
    case GitPull => SingleItem(ts, ["--rebase"], "--rebase", "-r");
    case GitLog =>
      SingleItem(ts, ["--oneline", "-20"], "--oneline", "-n");
      SpacedTexts();
    case GitStatus => SingleItem(ts, ["-s"], "-s", "--short");
    case GitDiff => SingleItem(ts, ["--stat"], "--stat", "");
    case _ =>
  }

  lemma DockerTable(rule: Rule, ts: seq<Token>)
    requires rule in {DockerBuild, DockerRun, DockerPs, DockerImages}
    ensures Additions(rule, ts) == AppliedItems(Items(rule), ts)
  {
    hide HasFlag, AppliedItems;
    match rule
    case DockerBuild => TwoFlagRule(ts, ["--pull"], "--pull", "--no-cache", ["--compress"], "--compress");
    case DockerRun =>
      TwoFlagRule(ts, ["--rm"], "--rm", "", ["--network", "host"], "--network");
      SpacedTexts();
    case DockerPs => SingleItem(ts, ["-q"], "-q", "--quiet");
    case DockerImages => SingleItem(ts, ["-q"], "-q", "--quiet");
    case _ =>
  }

  /** The table says exactly what the rules do. */
  lemma TableMatchesRules(rule: Rule, ts: seq<Token>)
    ensures Additions(rule, ts) == AppliedItems(Items(rule), ts)
  {
    hide HasFlag, AppliedItems;
    match rule
    case GitClone | GitPush | GitPull | GitLog | GitStatus | GitDiff => GitTable(rule, ts);
    case CargoBuild =>
      TwoFlagRule(ts, ["-j", "4"], "-j", "--jobs", ["--locked"], "--locked");
      SpacedTexts();
    case CargoTest => SingleItem(ts, ["--no-fail-fast"], "--no-fail-fast", "");
    case CargoCheck => SingleItem(ts, ["--all-targets"], "--all-targets", "");
    case NpmInstall => NpmInstallTable(ts);
    case NpmRun => SingleItem(ts, ["--if-present"], "--if-present", "");
    case NpmTest => SingleItem(ts, ["--runInBand"], "--runInBand", "-r");
    case NpmBuild => SingleItem(ts, ["--ignore-scripts"], "--ignore-scripts", "");
    case DockerBuild | DockerRun | DockerPs | DockerImages => DockerTable(rule, ts);
    case GoBuild =>
      SingleItem(ts, ["-v"], "-vv", "");
      DoublyVerboseIsVerbose(ts);
    case GoTest => TwoFlagRule(ts, ["-short"], "-short", "", ["-count=1"], "-count=1");
    case GoFmt => SingleItem(ts, ["-l"], "-l", "");
    case GoVet => SingleItem(ts, ["-v"], "-v", "");
  }

  lemma DoublyVerboseIsVerbose(ts: seq<Token>)
    ensures HasFlag(ts, "-vv") ==> HasFlag(ts, "-v")
  {
  }

  // ----- Facts about the table

  ghost predicate FlagName(f: string) {
    f != "" && f[0] == '-'
  }

  /** The words are clean, and all flags look like flags. */
  ghost predicate WellFormedItem(item: Item) {
    && item.words != [] && (forall w :: w in item.words ==> Clean(w))
    && (forall f :: f in item.unless ==> FlagName(f))
    && (forall f :: f in item.onlyIf ==> FlagName(f))
  }

  /** Once appended, the addition suppresses itself. */
  ghost predicate SelfSuppressing(item: Item)
    requires item.words != []
  {
    exists f :: f in item.unless && f <= item.words[0]
  }

  /** Appending words of `item` cannot switch on a condition of `other`. */
  ghost predicate Independent(item: Item, other: Item) {
    forall w, f :: w in item.words && f in other.onlyIf ==> !(f <= w)
  }

  /** Every item is well formed, suppresses itself, and no item switches another one on. */
  ghost predicate Settling(items: seq<Item>) {
    && (forall it :: it in items ==> WellFormedItem(it) && SelfSuppressing(it))
    && (forall it, other :: it in items && other in items ==> Independent(it, other))
  }

  lemma PlainItem(words: seq<string>, f: string, w: string)
    requires Clean(w) && FlagName(f) && f <= w
    requires words == [w] || (|words| == 2 && words[0] == w && Clean(words[1]))
    ensures Settling([Item(words, [f], [])])
  {
    assert f in [f];
  }

  lemma PlainItem2(words: seq<string>, f: string, g: string, w: string)
    requires Clean(w) && FlagName(f) && FlagName(g) && f <= w
    requires words == [w] || (|words| == 2 && words[0] == w && Clean(words[1]))
    ensures Settling([Item(words, [f, g], [])])
  {
    assert f in [f, g];
  }

  lemma SettlingPair(a: Item, b: Item)
    requires Settling([a]) && Settling([b]) && a.onlyIf == [] && b.onlyIf == []
    ensures Settling([a, b])
  {
  }

  lemma SettlingTriple(a: Item, b: Item, c: Item)
    requires Settling([a]) && Settling([b.(onlyIf := [])]) && Settling([c])
    requires a.onlyIf == [] && c.onlyIf == [] && forall f :: f in b.onlyIf ==> FlagName(f)
    requires Independent(a, b) && Independent(b, b) && Independent(c, b)
    ensures Settling([a, b, c])
  {
    var b' := b.(onlyIf := []);
    assert a in [a] && b' in [b'] && c in [c];
    assert WellFormedItem(b') && SelfSuppressing(b');
    assert WellFormedItem(b) && SelfSuppressing(b);
  }

  lemma NpmInstallWords()
    ensures Clean("--prefer-offline") && Clean("--ignore-scripts") && Clean("--no-audit")
  {
  }

  lemma NpmInstallSettles()
    ensures Settling(Items(NpmInstall))
  {
    hide Settling;
    NpmInstallWords();
    PlainItem(["--prefer-offline"], "--prefer-offline", "--prefer-offline");
    PlainItem(["--ignore-scripts"], "--ignore-scripts", "--ignore-scripts");
    PlainItem(["--no-audit"], "--no-audit", "--no-audit");
    NotDevelopment("--prefer-offline", 'p');
    NotDevelopment("--ignore-scripts", 'i');
    NotDevelopment("--no-audit", 'n');
    var items := Items(NpmInstall);
    SettlingTriple(items[0], items[1], items[2]);
  }

  lemma NotDevelopment(w: string, c: char)
    requires |w| > 2 && w[1] == '-' && w[2] == c && c != 's'
    ensures !("--save-dev" <= w) && !("-D" <= w)
  {
  }

  lemma GitTableSettles(rule: Rule)
    requires rule in {GitClone, GitPush, GitPull, GitLog, GitStatus, GitDiff}
    ensures Settling(Items(rule))
  {
    hide Settling;
    match rule
    case GitClone =>
      PlainItem(["--depth=1"], "--depth", "--depth=1");
      PlainItem(["--single-branch"], "--single-branch", "--single-branch");
      SettlingPair(Items(rule)[0], Items(rule)[1]);
    case GitPush => PlainItem2(["--quiet"], "--quiet", "-q", "--quiet");
    case GitPull => PlainItem2(["--rebase"], "--rebase", "-r", "--rebase");
    case GitLog => PlainItem2(["--oneline", "-20"], "--oneline", "-n", "--oneline");
    case GitStatus => PlainItem2(["-s"], "-s", "--short", "-s");
    case GitDiff => PlainItem(["--stat"], "--stat", "--stat");
    case _ =>
  }

  lemma CargoTableSettles(rule: Rule)
    requires rule in {CargoBuild, CargoTest, CargoCheck}
    ensures Settling(Items(rule))
  {
    hide Settling;
    match rule
    case CargoBuild =>
      PlainItem2(["-j", "4"], "-j", "--jobs", "-j");
      PlainItem(["--locked"], "--locked", "--locked");
      SettlingPair(Items(rule)[0], Items(rule)[1]);
    case CargoTest => PlainItem(["--no-fail-fast"], "--no-fail-fast", "--no-fail-fast");
    case CargoCheck => PlainItem(["--all-targets"], "--all-targets", "--all-targets");
    case _ =>
  }

  lemma GoTableSettles(rule: Rule)
    requires rule in {GoTest, GoFmt, GoVet}
    ensures Settling(Items(rule))
  {
    hide Settling;
    match rule
    case GoTest =>
      PlainItem(["-short"], "-short", "-short");
      PlainItem(["-count=1"], "-count=1", "-count=1");
      SettlingPair(Items(rule)[0], Items(rule)[1]);
    case GoFmt => PlainItem(["-l"], "-l", "-l");
    case GoVet => PlainItem(["-v"], "-v", "-v");
    case _ =>
  }

  lemma DockerTableSettles(rule: Rule)
    requires rule in {DockerBuild, DockerRun, DockerPs, DockerImages}
    ensures Settling(Items(rule))
  {
    hide Settling;
    match rule
    case DockerBuild =>
      PlainItem2(["--pull"], "--pull", "--no-cache", "--pull");
      PlainItem(["--compress"], "--compress", "--compress");
      SettlingPair(Items(rule)[0], Items(rule)[1]);
    case DockerRun =>
      PlainItem(["--rm"], "--rm", "--rm");
      PlainItem(["--network", "host"], "--network", "--network");
      SettlingPair(Items(rule)[0], Items(rule)[1]);
    case DockerPs => PlainItem2(["-q"], "-q", "--quiet", "-q");
    case DockerImages => PlainItem2(["-q"], "-q", "--quiet", "-q");
    case _ =>
  }

  lemma TableSettles(rule: Rule)
    requires rule != GoBuild
    ensures Settling(Items(rule))
  {
    hide Settling;
    match rule
    case GitClone | GitPush | GitPull | GitLog | GitStatus | GitDiff => GitTableSettles(rule);
    case CargoBuild | CargoTest | CargoCheck => CargoTableSettles(rule);
    case NpmInstall => NpmInstallSettles();
    case NpmRun => PlainItem(["--if-present"], "--if-present", "--if-present");
    case NpmTest => PlainItem2(["--runInBand"], "--runInBand", "-r", "--runInBand");
    case NpmBuild => PlainItem(["--ignore-scripts"], "--ignore-scripts", "--ignore-scripts");
    case DockerBuild | DockerRun | DockerPs | DockerImages => DockerTableSettles(rule);
    case GoTest | GoFmt | GoVet => GoTableSettles(rule);
    case GoBuild =>
  }

  // ----- Rewriting reaches a fixpoint

  lemma AppliedWords(items: seq<Item>, ts: seq<Token>)
    requires items != [] && WellFormedItem(items[0])
    ensures FlattenWords(AppliedItems(items, ts))
         == (if Applies(items[0], ts) then items[0].words else []) + FlattenWords(AppliedItems(items[1..], ts))
  {
    WordsOfJoin(items[0].words);
    FlattenClean(items[0].words);
    if Applies(items[0], ts) {
      assert AppliedItems(items, ts)[1..] == AppliedItems(items[1..], ts);
    } else {
      assert AppliedItems(items, ts) == AppliedItems(items[1..], ts);
    }
  }

  lemma {:induction false} AppendedWordsComeFromItems(items: seq<Item>, ts: seq<Token>, w: string) returns (item: Item)
    requires forall it :: it in items ==> WellFormedItem(it)
    requires w in FlattenWords(AppliedItems(items, ts))
    ensures item in items && w in item.words
  {
    assert items[0] in items;
    AppliedWords(items, ts);
    if w in items[0].words {
      item := items[0];
    } else {
      item := AppendedWordsComeFromItems(items[1..], ts, w);
    }
  }

  lemma {:induction false} AppliedItemContributes(items: seq<Item>, ts: seq<Token>, item: Item)
    requires forall it :: it in items ==> WellFormedItem(it)
    requires item in items && Applies(item, ts)
    ensures item.words != [] && item.words[0] in FlattenWords(AppliedItems(items, ts))
  {
    assert items[0] in items;
    AppliedWords(items, ts);
    if item != items[0] {
      AppliedItemContributes(items[1..], ts, item);
    }
  }

  /** An item of a settling table no longer applies once the table's additions are appended. */
  lemma ItemSettles(items: seq<Item>, ws: seq<string>, item: Item)
    requires Settling(items) && item in items
    ensures !Applies(item, Typed(ws + FlattenWords(AppliedItems(items, Typed(ws)))))
  {
    var ts := Typed(ws);
    var more := FlattenWords(AppliedItems(items, ts));
    var after := Typed(ws + more);
    if Applies(item, ts) {
      AppliedItemContributes(items, ts, item);
      var f :| f in item.unless && f <= item.words[0];
      var i :| 0 <= i < |item.unless| && item.unless[i] == f;
      var k :| 0 <= k < |more| && more[k] == item.words[0];
      assert HasPrefixWord(more, f);
      HasFlagAppend(ws, more, f);
      assert HasFlag(after, item.unless[i]);
    } else if HasAny(ts, item.unless) {
      var i :| 0 <= i < |item.unless| && HasFlag(ts, item.unless[i]);
      assert item.unless[i] in item.unless;
      HasFlagAppend(ws, more, item.unless[i]);
      assert HasFlag(after, item.unless[i]);
    } else {
      forall i | 0 <= i < |item.onlyIf|
        ensures !HasFlag(after, item.onlyIf[i])
      {
        assert item.onlyIf[i] in item.onlyIf;
        assert !HasFlag(ts, item.onlyIf[i]);
        HasFlagAppend(ws, more, item.onlyIf[i]);
        forall k | 0 <= k < |more|
          ensures !(item.onlyIf[i] <= more[k])
        {
          var source := AppendedWordsComeFromItems(items, ts, more[k]);
          assert Independent(source, item);
        }
      }
    }
  }

  /** Appending what a rule asks for leaves it with nothing to ask for. */
  lemma RuleSettles(rule: Rule, ws: seq<string>)
    requires rule != GoBuild
    ensures Additions(rule, Typed(ws + FlattenWords(Additions(rule, Typed(ws))))) == []
  {
    TableMatchesRules(rule, Typed(ws));
    TableSettles(rule);
    var after := Typed(ws + FlattenWords(Additions(rule, Typed(ws))));
    forall item | item in Items(rule)
      ensures !Applies(item, after)
    {
      ItemSettles(Items(rule), ws, item);
    }
    NoneAppliedIff(Items(rule), after);
    TableMatchesRules(rule, after);
  }

  // ----- Whole commands

  lemma SuggestionComesFromRule(tool: Tool, cmd: string)
    ensures FilterTool(tool, cmd).shouldOptimize
       <==> MatchedRule(tool, cmd).Some? && Additions(MatchedRule(tool, cmd).value, Tokens(cmd)) != []
    ensures FilterTool(tool, cmd).shouldOptimize ==>
      FilterTool(tool, cmd) == Optimize(MatchedRule(tool, cmd).value, Tokens(cmd))
  {
  }

  /** The first two words of the command name the rule's tool and subcommand, in any letter case. */
  ghost predicate Calls(cmd: string, rule: Rule) {
    var ws := Words(cmd);
    |ws| >= 2 && ToLower(ws[0]) == ToolName(ToolOf(rule)) && ToLower(ws[1]) == SubcommandOf(rule)
  }

  lemma MatchedIff(tool: Tool, cmd: string, rule: Rule)
    ensures MatchedRule(tool, cmd) == Some(rule) <==> tool == ToolOf(rule) && Calls(cmd, rule)
  {
    hide Words, RuleFor;
    var ws := Words(cmd);
    if |ws| >= 2 {
      DispatchIsExact(tool, ToLower(ws[1]), rule);
    }
  }

  /** The words the table of a rule adds to a command. */
  ghost function AddedWords(rule: Rule, cmd: string): seq<string> {
    FlattenWords(AppliedItems(Items(rule), Tokens(cmd)))
  }

  /**
   A command that names a rule gets that rule: it is suggested for exactly if some item of the
   rule's table applies, and then the suggestion is the text of the kept words and the words of
   those items, with single spaces.
   */
  lemma CommandGetsItsRule(cmd: string, rule: Rule)
    requires Calls(cmd, rule)
    ensures var r := FilterTool(ToolOf(rule), cmd);
      && (r.shouldOptimize <==> exists item :: item in Items(rule) && Applies(item, Tokens(cmd)))
      && r.originalCommand == Join(Words(cmd), ' ')
      && (r.shouldOptimize ==>
            r.optimizedCommand == Join(KeptWords(rule, Words(cmd)) + AddedWords(rule, cmd), ' '))
  {
    hide Words, FlattenWords, Items, Applies, Additions, FilterTool;
    var tool := ToolOf(rule);
    MatchedIff(tool, cmd, rule);
    SuggestionComesFromRule(tool, cmd);
    TableMatchesRules(rule, Tokens(cmd));
    NoneAppliedIff(Items(rule), Tokens(cmd));
    assert Values(Tokens(cmd)) == Words(cmd);
    MatchedIsOptimized(tool, cmd);
    if FilterTool(tool, cmd).shouldOptimize {
      TableWellFormed(rule);
      AppliedText(Items(rule), Tokens(cmd));
      SuggestedText(rule, Words(cmd), AppliedItems(Items(rule), Tokens(cmd)));
    }
  }

  lemma SuggestedText(rule: Rule, ws: seq<string>, additions: seq<string>)
    requires |ws| >= 2 && additions != [] && FlattenWords(additions) != []
    requires Join(additions, ' ') == Join(FlattenWords(additions), ' ')
    ensures Suggestion(rule, Typed(ws), additions).optimizedCommand
         == Join(KeptWords(rule, ws) + FlattenWords(additions), ' ')
  {
    hide FlattenWords, Join;
    assert Values(Typed(ws)) == ws;
    if rule == GitPush {
      assert ws[..2] == [ws[0], ws[1]];
      TwoWords(ws[0], ws[1]);
    }
    JoinAppend(KeptWords(rule, ws), FlattenWords(additions), ' ');
  }

  /** The additions of a rule, joined, read like their words joined. */
  lemma {:induction false} AppliedText(items: seq<Item>, ts: seq<Token>)
    requires forall it :: it in items ==> WellFormedItem(it)
    ensures var applied := AppliedItems(items, ts);
      applied != [] ==> FlattenWords(applied) != [] && Join(applied, ' ') == Join(FlattenWords(applied), ' ')
  {
    hide Words, FlattenWords, Applies;
    if items != [] {
      var rest := AppliedItems(items[1..], ts);
      AppliedText(items[1..], ts);
      assert items[0] in items;
      AppliedWords(items, ts);
      NoAdditions();
      if !Applies(items[0], ts) {
        assert AppliedItems(items, ts) == rest && FlattenWords(AppliedItems(items, ts)) == FlattenWords(rest);
      } else if rest != [] {
        assert AppliedItems(items, ts)[1..] == rest;
        JoinAppend(items[0].words, FlattenWords(rest), ' ');
      } else {
        assert FlattenWords(AppliedItems(items, ts)) == items[0].words;
      }
    }
  }

  lemma NoAdditions()
    ensures FlattenWords([]) == []
  {
  }

  lemma TableWellFormed(rule: Rule)
    ensures forall it :: it in Items(rule) ==> WellFormedItem(it)
  {
    if rule != GoBuild {
      hide Items;
      TableSettles(rule);
    }
  }

  lemma {:induction false} NoneAppliedIff(items: seq<Item>, ts: seq<Token>)
    ensures AppliedItems(items, ts) == [] <==> forall item :: item in items ==> !Applies(item, ts)
  {
    hide Applies;
    if items != [] {
      NoneAppliedIff(items[1..], ts);
      assert items == [items[0]] + items[1..];
    }
  }

  lemma MatchedIsOptimized(tool: Tool, cmd: string)
    requires MatchedRule(tool, cmd).Some?
    ensures |Tokens(cmd)| >= 2 && FilterTool(tool, cmd) == Optimize(MatchedRule(tool, cmd).value, Tokens(cmd))
  {
  }

  /** A command that names no rule of the tool is reported as it is. */
  lemma OtherCommandsAreLeft(tool: Tool, cmd: string)
    requires forall rule :: ToolOf(rule) == tool ==> !Calls(cmd, rule)
    ensures FilterTool(tool, cmd) == FilterResult(false, cmd, "")
  {
    hide MatchedRule, Calls;
    if MatchedRule(tool, cmd).Some? {
      MatchedIff(tool, cmd, MatchedRule(tool, cmd).value);
    }
  }

  /** The reported original is the given command, token by token; without a suggestion, so is the optimized one. */
  lemma OriginalIsKept(tool: Tool, cmd: string)
    ensures Tokens(FilterTool(tool, cmd).originalCommand) == Tokens(cmd)
    ensures MatchedRule(tool, cmd).Some? && !FilterTool(tool, cmd).shouldOptimize ==>
      FilterTool(tool, cmd).optimizedCommand == FilterTool(tool, cmd).originalCommand
  {
    RoundTrip(cmd);
  }

  /** The words a rewritten command keeps: all of them, except that the push rule keeps two. */
  function KeptWords(rule: Rule, ws: seq<string>): seq<string>
    requires |ws| >= 2
  {
    if rule == GitPush then ws[..2] else ws
  }

  lemma PushText(ws: seq<string>, added: string)
    requires |ws| >= 2 && forall w :: w in ws ==> Clean(w)
    ensures Words(ws[0] + " " + ws[1] + " " + added) == ws[..2] + Words(added)
  {
    assert ws[..2] == [ws[0], ws[1]];
    TwoWords(ws[0], ws[1]);
    WordsOfJoin(ws[..2]);
    FlattenClean(ws[..2]);
    WordsAppend(ws[0] + " " + ws[1], ' ', added);
  }

  lemma JoinedText(ws: seq<string>, added: string)
    requires |ws| >= 2 && forall w :: w in ws ==> Clean(w)
    ensures Words(Join(ws, ' ') + " " + added) == ws + Words(added)
  {
    WordsOfJoin(ws);
    FlattenClean(ws);
    WordsAppend(Join(ws, ' '), ' ', added);
  }

  lemma SuggestionText(rule: Rule, cmd: string, additions: seq<string>) returns (rest: string)
    requires |Words(cmd)| >= 2 && additions != []
    ensures var text := Suggestion(rule, Tokens(cmd), additions).optimizedCommand;
      && text == Words(cmd)[0] + " " + rest
      && Words(text) == KeptWords(rule, Words(cmd)) + FlattenWords(additions)
  {
    hide Words, FlattenWords;
    var ws := Words(cmd);
    var added := Join(additions, ' ');
    WordsOfJoin(additions);
    assert Values(Tokens(cmd)) == ws;
    if rule == GitPush {
      rest := ws[1] + " " + added;
      PushText(ws, added);
      assert ws[0] + " " + ws[1] + " " + added == ws[0] + " " + rest;
    } else {
      rest := Join(ws[1..], ' ') + " " + added;
      JoinedText(ws, added);
      assert Join(ws, ' ') + " " + added == ws[0] + " " + rest;
    }
  }

  lemma OptimizedWords(tool: Tool, cmd: string) returns (rest: string)
    requires FilterTool(tool, cmd).shouldOptimize
    ensures var rule := MatchedRule(tool, cmd).value;
      var optimized := FilterTool(tool, cmd).optimizedCommand;
      && |Words(cmd)| >= 2
      && optimized == Words(cmd)[0] + " " + rest
      && Words(optimized) == KeptWords(rule, Words(cmd)) + FlattenWords(Additions(rule, Tokens(cmd)))
  {
    SuggestionComesFromRule(tool, cmd);
    var rule := MatchedRule(tool, cmd).value;
    rest := SuggestionText(rule, cmd, Additions(rule, Tokens(cmd)));
  }

  /**
   A rewritten command is the original command's tokens, types included, followed by
   additions only. The push rule has this property exactly for a bare `git push`.
   */
  lemma RewriteKeepsTokens(tool: Tool, cmd: string)
    requires FilterTool(tool, cmd).shouldOptimize
    ensures var rule := MatchedRule(tool, cmd).value;
      var optimized := FilterTool(tool, cmd).optimizedCommand;
      && (Tokens(cmd) <= Tokens(optimized) <==> rule != GitPush || |Tokens(cmd)| == 2)
      && Tokens(optimized) == Typed(KeptWords(rule, Words(cmd)) + FlattenWords(Additions(rule, Tokens(cmd))))
  {
    hide FilterTool, Additions, FlattenWords, Words;
    var rest := OptimizedWords(tool, cmd);
    SuggestionComesFromRule(tool, cmd);
    var rule := MatchedRule(tool, cmd).value;
    var ws, ts := Words(cmd), Tokens(cmd);
    var optimized := FilterTool(tool, cmd).optimizedCommand;
    if rule == GitPush {
      PushAdds(ts);
      assert Words(optimized) == ws[..2] + ["--quiet"];
      assert |Tokens(optimized)| == 3;
      if |ts| == 3 {
        assert Tokens(optimized)[2].value == "--quiet";
        assert ts[2].value != "--quiet" by {
          HasFlagOfWords(ws, "--quiet");
          assert ts[2].value == ws[2];
        }
      }
    }
  }

  lemma PushAdds(ts: seq<Token>)
    requires Additions(GitPush, ts) != []
    ensures Additions(GitPush, ts) == ["--quiet"] && FlattenWords(["--quiet"]) == ["--quiet"]
    ensures !HasFlag(ts, "--quiet")
  {
    FlattenClean(["--quiet"]);
  }

  lemma SameHeadSameRule(tool: Tool, a: string, b: string)
    requires |Words(a)| >= 2 && |Words(b)| >= 2 && Words(a)[..2] == Words(b)[..2]
    ensures MatchedRule(tool, a) == MatchedRule(tool, b)
  {
    assert Words(a)[0] == Words(a)[..2][0] && Words(a)[1] == Words(a)[..2][1];
    assert Words(b)[0] == Words(b)[..2][0] && Words(b)[1] == Words(b)[..2][1];
  }

  /** What is left to add to a rewritten command: nothing, except for `go build`. */
  lemma AdditionsAfterRewrite(rule: Rule, ws: seq<string>)
    requires |ws| >= 2 && Additions(rule, Typed(ws)) != []
    ensures Additions(rule, Typed(KeptWords(rule, ws) + FlattenWords(Additions(rule, Typed(ws))))) != []
       <==> rule == GoBuild
  {
    var additions := Additions(rule, Typed(ws));
    if rule == GoBuild {
      GoBuildAdds(ws);
    } else if rule == GitPush {
      PushAdds(Typed(ws));
      var quiet := "--quiet";
      assert HasPrefixWord([quiet], quiet) by { assert quiet <= [quiet][0]; }
      HasFlagAppend(ws[..2], [quiet], quiet);
    } else {
      RuleSettles(rule, ws);
    }
  }

  /** `go build` asks for one more `-v` unless the command has a flag that starts with `-vv`. */
  lemma GoBuildAdds(ws: seq<string>)
    ensures Additions(GoBuild, Typed(ws)) == if HasFlag(Typed(ws), "-vv") then [] else ["-v"]
    ensures FlattenWords(["-v"]) == ["-v"]
    ensures HasFlag(Typed(ws + ["-v"]), "-vv") <==> HasFlag(Typed(ws), "-vv")
  {
    DoublyVerboseIsVerbose(Typed(ws));
    FlattenClean(["-v"]);
    HasFlagAppend(ws, ["-v"], "-vv");
  }

  /** Filtering a rewritten command again suggests nothing, for every rule but `go build`. */
  lemma RewriteSettles(tool: Tool, cmd: string)
    requires FilterTool(tool, cmd).shouldOptimize
    ensures var optimized := FilterTool(tool, cmd).optimizedCommand;
      && MatchedRule(tool, optimized) == MatchedRule(tool, cmd)
      && (FilterTool(tool, optimized).shouldOptimize <==> MatchedRule(tool, cmd).value == GoBuild)
  {
    hide FilterTool, Additions, FlattenWords, Words;
    var rest := OptimizedWords(tool, cmd);
    SuggestionComesFromRule(tool, cmd);
    var rule := MatchedRule(tool, cmd).value;
    var optimized := FilterTool(tool, cmd).optimizedCommand;
    SameHeadSameRule(tool, cmd, optimized);
    SuggestionComesFromRule(tool, optimized);
    AdditionsAfterRewrite(rule, Words(cmd));
  }

  /** Rewriting `n` times. */
  function Rewritten(tool: Tool, cmd: string, n: nat): string
    decreases n
  {
    if n == 0 then cmd else Rewritten(tool, FilterTool(tool, cmd).optimizedCommand, n - 1)
  }

  function Repeat(w: string, n: nat): seq<string> {
    seq(n, _ => w)
  }

  lemma RepeatOnce(ws: seq<string>, w: string, n: nat)
    ensures ws + Repeat(w, 0) == ws
    ensures n > 0 ==> (ws + [w]) + Repeat(w, n - 1) == ws + Repeat(w, n)
  {
  }

  lemma GoBuildRound(cmd: string)
    requires MatchedRule(Go, cmd) == Some(GoBuild) && !HasFlag(Tokens(cmd), "-vv")
    ensures FilterTool(Go, cmd).shouldOptimize
    ensures var next := FilterTool(Go, cmd).optimizedCommand;
      && Words(next) == Words(cmd) + ["-v"]
      && MatchedRule(Go, next) == Some(GoBuild) && !HasFlag(Tokens(next), "-vv")
  {
    GoBuildAdds(Words(cmd));
    SuggestionComesFromRule(Go, cmd);
    var rest := OptimizedWords(Go, cmd);
    SameHeadSameRule(Go, cmd, FilterTool(Go, cmd).optimizedCommand);
  }

  /** Rewriting a `go build` command never stops: each round appends one more `-v`. */
  lemma {:induction false} GoBuildNeverSettles(cmd: string, n: nat)
    requires MatchedRule(Go, cmd) == Some(GoBuild) && !HasFlag(Tokens(cmd), "-vv")
    ensures Words(Rewritten(Go, cmd, n)) == Words(cmd) + Repeat("-v", n)
    ensures FilterTool(Go, Rewritten(Go, cmd, n)).shouldOptimize
    decreases n
  {
    GoBuildRound(cmd);
    RepeatOnce(Words(cmd), "-v", n);
    if n > 0 {
      GoBuildNeverSettles(FilterTool(Go, cmd).optimizedCommand, n - 1);
    }
  }

  /** The plain `go build`: after `n` rewrites it carries `n` flags `-v` and is still suggested for. */
  lemma GoBuildExample(n: nat)
    ensures var cmd := Join(["go", "build"], ' ');
      && Words(Rewritten(Go, cmd, n)) == ["go", "build"] + Repeat("-v", n)
      && FilterTool(Go, Rewritten(Go, cmd, n)).shouldOptimize
  {
    hide FilterTool, Additions, FlattenWords, Words, Rewritten, Repeat;
    var ws := ["go", "build"];
    var cmd := Join(ws, ' ');
    assert Words(cmd) == ws by {
      WordsOfJoin(ws);
      FlattenClean(ws);
    }
    NoFlags(ws, "-vv");
    assert ToLower("go") == "go" && ToLower("build") == "build";
    GoBuildNeverSettles(cmd, n);
  }

  // ----- The entry point with tool detection

  lemma FirstField(s: string, w: string, rest: string)
    requires s == w + " " + rest && Clean(w) && |Words(s)| >= 2
    ensures TrimSpace(s) != "" && Split(TrimSpace(s), ' ')[0] == w
  {
    assert s[0] == w[0] && TrimLeft(s) == s;
    TrimKeepsWords(s);
    var t := TrimSpace(s);
    if t != "" && |t| <= |w| {
      assert forall k :: 0 <= k < |t| ==> t[k] == w[k];
      WordsOfClean(t);
    }
    assert |t| > |w| && t[|w|] == s[|w|] == ' ';
    assert forall k :: 0 <= k < |w| ==> t[k] == w[k] && !IsSpace(t[k]);
    SplitFirst(t, ' ', |w|);
    assert t[..|w|] == w;
  }

  lemma DetectsEnabledTool(config: FilterConfig, tool: Tool)
    ensures Enabled(config, tool) ==> DetectTool(config, ToolName(tool)) == Some(tool)
  {
  }

  lemma SameWordsSameVerdict(tool: Tool, a: string, b: string)
    requires Words(a) == Words(b)
    ensures FilterTool(tool, a).shouldOptimize == FilterTool(tool, b).shouldOptimize
  {
  }

  /** What a tool's filter suggests is detected as a command of the same tool. */
  lemma SuggestionIsDetected(config: FilterConfig, tool: Tool, cmd: string)
    requires Enabled(config, tool) && FilterTool(tool, cmd).shouldOptimize
    ensures var optimized := FilterTool(tool, cmd).optimizedCommand;
      Filter(config, optimized) == FilterTool(tool, TrimSpace(optimized))
  {
    var rest := OptimizedWords(tool, cmd);
    var w := Words(cmd)[0];
    var optimized := FilterTool(tool, cmd).optimizedCommand;
    assert |Words(optimized)| >= 2 && Clean(w);
    FirstField(optimized, w, rest);
    assert ToLower(w) == ToolName(tool) by { SuggestionComesFromRule(tool, cmd); }
    DetectsEnabledTool(config, tool);
  }

  lemma DetectedTool(config: FilterConfig, raw: string) returns (tool: Tool)
    requires Filter(config, raw).shouldOptimize
    ensures Enabled(config, tool)
    ensures Filter(config, raw) == FilterTool(tool, TrimSpace(raw))
  {
    tool := DetectTool(config, ToLower(Split(TrimSpace(raw), ' ')[0])).value;
  }

  /**
   The auto-detecting filter settles as well: it recognises what it suggested as a command
   of the same tool, and has nothing more to suggest unless the rule is `go build`.
   */
  lemma FilterSettles(config: FilterConfig, raw: string) returns (tool: Tool)
    requires Filter(config, raw).shouldOptimize
    ensures Filter(config, raw) == FilterTool(tool, TrimSpace(raw)) && MatchedRule(tool, raw).Some?
    ensures Filter(config, Filter(config, raw).optimizedCommand).shouldOptimize
       <==> MatchedRule(tool, raw).value == GoBuild
  {
    tool := DetectedTool(config, raw);
    var cmd := TrimSpace(raw);
    TrimKeepsWords(raw);
    assert MatchedRule(tool, raw) == MatchedRule(tool, cmd);
    assert MatchedRule(tool, cmd).Some? by { SuggestionComesFromRule(tool, cmd); }
    SettlesThroughDetection(config, tool, cmd);
  }

  lemma SettlesThroughDetection(config: FilterConfig, tool: Tool, cmd: string)
    requires Enabled(config, tool) && FilterTool(tool, cmd).shouldOptimize && MatchedRule(tool, cmd).Some?
    ensures Filter(config, FilterTool(tool, cmd).optimizedCommand).shouldOptimize
       <==> MatchedRule(tool, cmd).value == GoBuild
  {
    var optimized := FilterTool(tool, cmd).optimizedCommand;
    RewriteSettles(tool, cmd);
    SuggestionIsDetected(config, tool, cmd);
    TrimKeepsWords(optimized);
    SameWordsSameVerdict(tool, optimized, TrimSpace(optimized));
  }

  /** The first word of the command is followed by a space character, rather than by another blank. */
  ghost predicate SpaceAfterFirstWord(cmd: string) {
    var t, ws := TrimSpace(cmd), Words(cmd);
    |ws| > 0 && |t| > |ws[0]| && t[|ws[0]|] == ' '
  }

  lemma FirstWordOfTrimmed(raw: string)
    requires |Words(raw)| >= 2
    ensures var t, w := TrimSpace(raw), Words(raw)[0];
      |t| > |w| && t[..|w|] == w && IsSpace(t[|w|]) && Clean(w)
  {
    TrimKeepsWords(raw);
    var t := TrimSpace(raw);
    assert t != "" && Words(t) == Words(raw);
    WordsHead(t);
  }

  lemma DetectedIff(config: FilterConfig, name: string, tool: Tool)
    ensures DetectTool(config, name) == Some(tool) <==> Enabled(config, tool) && name == ToolName(tool)
  {
    assert "git"[0] == 'g' && "git"[1] == 'i' && "go"[0] == 'g' && "go"[1] == 'o';
    assert "cargo"[0] == 'c' && "npm"[0] == 'n' && "docker"[0] == 'd';
  }

  /** The text before the first space names a tool exactly if it is the first word. */
  lemma DetectionIff(config: FilterConfig, raw: string, tool: Tool)
    requires |Words(raw)| >= 2
    ensures DetectTool(config, ToLower(Split(TrimSpace(raw), ' ')[0])) == Some(tool) <==>
      Enabled(config, tool) && SpaceAfterFirstWord(raw) && ToLower(Words(raw)[0]) == ToolName(tool)
  {
    hide Words, DetectTool, ToolName, Enabled;
    var t, w := TrimSpace(raw), Words(raw)[0];
    var field := Split(t, ' ')[0];
    FirstWordOfTrimmed(raw);
    DetectedIff(config, ToLower(field), tool);
    if t[|w|] == ' ' {
      assert forall k :: 0 <= k < |w| ==> t[k] == w[k] && w[k] != ' ';
      SplitFirst(t, ' ', |w|);
    } else if ToLower(field) == ToolName(tool) {
      LongerField(t, |w|);
      NameHasNoBlank(tool, |w|);
      assert ToLower(field)[|w|] == LowerChar(t[|w|]);
    }
  }

  lemma NameHasNoBlank(tool: Tool, k: nat)
    ensures k < |ToolName(tool)| ==> forall c :: IsSpace(c) ==> ToolName(tool)[k] != LowerChar(c)
  {
  }

  /** Without a space up to position `k`, the first field reaches beyond it. */
  lemma {:induction false} LongerField(t: string, k: nat)
    requires k < |t| && forall i :: 0 <= i <= k ==> t[i] != ' '
    ensures |Split(t, ' ')[0]| > k && Split(t, ' ')[0][k] == t[k]
  {
    if k > 0 {
      LongerField(t[1..], k - 1);
    }
  }

  /**
   The auto-detecting filter suggests exactly for commands of an enabled tool, with a space after
   the first word, that name a rule some item of whose table applies; and then it suggests what
   that tool's filter does.
   */
  lemma FilterSuggestsIff(config: FilterConfig, raw: string, rule: Rule)
    requires Calls(raw, rule)
    ensures Filter(config, raw).shouldOptimize <==>
      && Enabled(config, ToolOf(rule)) && SpaceAfterFirstWord(raw)
      && exists item :: item in Items(rule) && Applies(item, Tokens(raw))
    ensures Filter(config, raw).shouldOptimize ==>
      Filter(config, raw).optimizedCommand == Join(KeptWords(rule, Words(raw)) + AddedWords(rule, raw), ' ')
  {
    hide Words, FlattenWords, Items, Applies, FilterTool, DetectTool, ToolName, Enabled, SpaceAfterFirstWord;
    var tool, cmd := ToolOf(rule), TrimSpace(raw);
    TrimKeepsWords(raw);
    assert cmd != "" by { FirstWordOfTrimmed(raw); }
    CommandGetsItsRule(cmd, rule);
    DetectionIff(config, raw, tool);
    var detected := DetectTool(config, ToLower(Split(cmd, ' ')[0]));
    if detected.Some? {
      DetectionIff(config, raw, detected.value);
      NamesDiffer(detected.value, tool);
    }
  }

  lemma NamesDiffer(a: Tool, b: Tool)
    ensures ToolName(a) == ToolName(b) ==> a == b
  {
    assert "git"[1] == 'i' && "go"[1] == 'o' && "npm"[0] == 'n' && "cargo"[0] == 'c' && "docker"[0] == 'd';
  }

  /** A command that names no rule is never suggested for. */
  lemma FilterLeavesOthers(config: FilterConfig, raw: string)
    requires forall rule :: !Calls(raw, rule)
    ensures !Filter(config, raw).shouldOptimize
  {
    hide Words, FilterTool;
    var cmd := TrimSpace(raw);
    TrimKeepsWords(raw);
    assert forall rule :: Calls(cmd, rule) <==> Calls(raw, rule);
    hide Calls;
    var detected := DetectTool(config, ToLower(Split(cmd, ' ')[0]));
    if detected.Some? {
      OtherCommandsAreLeft(detected.value, cmd);
    }
  }

  /** `npm test` is rewritten to `npm test --runInBand`. */
  lemma NpmTestExample()
    ensures var r := FilterTool(Npm, Join(["npm", "test"], ' '));
      r.shouldOptimize && r.optimizedCommand == Join(["npm", "test", "--runInBand"], ' ')
  {
    hide Words, FilterTool, FlattenWords, Additions;
    var ws := ["npm", "test"];
    var cmd := Join(ws, ' ');
    assert Words(cmd) == ws by {
      WordsOfJoin(ws);
      FlattenClean(ws);
    }
    assert ToLower("npm") == "npm" && ToLower("test") == "test";
    assert Calls(cmd, NpmTest);
    NpmTestAdds(ws);
    CommandGetsItsRule(cmd, NpmTest);
    var items := Items(NpmTest);
    assert items[0] in items;
  }

  lemma NpmTestAdds(ws: seq<string>)
    requires ws == ["npm", "test"]
    ensures Applies(Items(NpmTest)[0], Typed(ws))
    ensures FlattenWords(AppliedItems(Items(NpmTest), Typed(ws))) == ["--runInBand"]
  {
    NoFlags(ws, "--runInBand");
    NoFlags(ws, "-r");
    HasAnyDisplay(Typed(ws), "--runInBand", "-r");
    SingleItem(Typed(ws), ["--runInBand"], "--runInBand", "-r");
    FlattenClean(["--runInBand"]);
  }

  // ----- A command the push rule damages

  lemma NoFlags(ws: seq<string>, flag: string)
    requires FlagName(flag) && forall i :: 0 <= i < |ws| ==> ws[i] != "" && ws[i][0] != '-'
    ensures !HasFlag(Typed(ws), flag)
  {
  }

  lemma PushSuggests(cmd: string)
    requires Words(cmd) == ["git", "push", "origin"]
    ensures MatchedRule(Git, cmd) == Some(GitPush) && Additions(GitPush, Tokens(cmd)) != []
  {
    NoFlags(Words(cmd), "--quiet");
    NoFlags(Words(cmd), "-q");
    assert ToLower("git") == "git" && ToLower("push") == "push";
    assert "push"[0] != "clone"[0];
  }

  /** The push rule drops arguments: `git push origin` loses its remote. */
  lemma PushDropsArguments()
    ensures var cmd := Join(["git", "push", "origin"], ' ');
      && FilterTool(Git, cmd).shouldOptimize
      && !(Tokens(cmd) <= Tokens(FilterTool(Git, cmd).optimizedCommand))
  {
    hide FilterTool, Additions, FlattenWords, Words;
    var ws := ["git", "push", "origin"];
    var cmd := Join(ws, ' ');
    WordsOfJoin(ws);
    FlattenClean(ws);
    PushSuggests(cmd);
    SuggestionComesFromRule(Git, cmd);
    RewriteKeepsTokens(Git, cmd);
  }
}
