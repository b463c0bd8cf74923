/** The arguments of `fgos config` (apps/fgos/src/cli_projector.rs) as requests of the config
  * provider (packages/config/rust/src/provider.rs). */
module ConfigArgs {
  import opened Wrappers
  import Text

  datatype Verb =
    | Show(path: Option<string>)
    | Standard(path: Option<string>)
    | Check
    | Explain(at: string)
    | Set(at: string, value: string, reason: string, global: bool)
    | Unset(at: string, reason: string, global: bool, acknowledge: bool)
    | Patch(file: string, reason: string, global: bool)
    | Migrate(global: bool, finish: bool, convert: bool, machineChecked: bool, acceptOverrides: bool, dryRun: bool)
    | RefreshDocs(global: bool)

  datatype Flag =
    | JsonF | DirF | PathF | ReasonF | GlobalF | AcknowledgeF | DryRunF | FinishF | ConvertF | MachineCheckedF
    | AcceptOverridesF

  datatype Sub = ShowS | StandardS | CheckS | ExplainS | SetS | UnsetS | PatchS | MigrateS | RefreshDocsS

  datatype Error =
    | NoSubcommand | UnknownSubcommand(name: string) | RequiresValue(flag: Flag) | UnknownOption(token: string)
    | WrongCount(expected: nat, got: nat)
    | FinishNeedsGlobal | ConvertNeedsGlobalAlone | MachineCheckedNeedsWrite | AcceptIsForProject

  // ---------- names ----------

  function FlagText(f: Flag): string {
    match f
    case JsonF => "--json" case DirF => "--dir" case PathF => "--path" case ReasonF => "--reason"
    case GlobalF => "--global" case AcknowledgeF => "--acknowledge-comment-loss" case DryRunF => "--dry-run"
    case FinishF => "--finish" case ConvertF => "--convert" case MachineCheckedF => "--machine-checked"
    case AcceptOverridesF => "--accept-machine-overrides"
  }

  function FlagOf(s: string): Option<Flag> {
    if s == "--json" then Some(JsonF) else if s == "--dir" then Some(DirF) else if s == "--path" then Some(PathF)
    else if s == "--reason" then Some(ReasonF) else if s == "--global" then Some(GlobalF)
    else if s == "--acknowledge-comment-loss" then Some(AcknowledgeF) else if s == "--dry-run" then Some(DryRunF)
    else if s == "--finish" then Some(FinishF) else if s == "--convert" then Some(ConvertF)
    else if s == "--machine-checked" then Some(MachineCheckedF)
    else if s == "--accept-machine-overrides" then Some(AcceptOverridesF) else None
  }

  function SubText(s: Sub): string {
    match s
    case ShowS => "show" case StandardS => "standard" case CheckS => "check" case ExplainS => "explain"
    case SetS => "set" case UnsetS => "unset" case PatchS => "patch" case MigrateS => "migrate"
    case RefreshDocsS => "refresh-docs"
  }

  function SubOf(s: string): Option<Sub> {
    if s == "show" then Some(ShowS) else if s == "standard" then Some(StandardS) else if s == "check" then Some(CheckS)
    else if s == "explain" then Some(ExplainS) else if s == "set" then Some(SetS) else if s == "unset" then Some(UnsetS)
    else if s == "patch" then Some(PatchS) else if s == "migrate" then Some(MigrateS)
    else if s == "refresh-docs" then Some(RefreshDocsS) else None
  }

  lemma FlagOfText(f: Flag)
    ensures FlagOf(FlagText(f)) == Some(f) && "--" <= FlagText(f) && '=' !in FlagText(f)
  {
    var s := FlagText(f);
    assert s[0] == '-' && s[1] == '-';
    assert |s| == 6 ==> s[2] == 'j' || s[2] == 'p';
    assert |s| == 8 ==> s[2] == 'r' || s[2] == 'g' || s[2] == 'f';
  }

  lemma SubOfText(s: Sub)
    ensures SubOf(SubText(s)) == Some(s)
  {
  }

  /** No other word is a verb. */
  lemma SubTextOf(s: string)
    ensures SubOf(s).Some? ==> SubText(SubOf(s).value) == s
  {
  }

  // ---------- reading the options ----------

  datatype Lexeme = Plain | Opt(flag: Option<Flag>, inline: Option<string>)

  function Lex(token: string): Lexeme {
    if !("--" <= token) then Plain
    else
      match Text.SplitOnce(token, '=')
      case Whole => Opt(FlagOf(token), None)
      case At(head, tail) => Opt(FlagOf(head), Some(tail))
  }

  /** `--dir` is accepted everywhere. */
  predicate Valued(sub: Sub, f: Flag) {
    match f
    case DirF => true
    case PathF => sub.ShowS? || sub.StandardS?
    case ReasonF => sub.SetS? || sub.UnsetS? || sub.PatchS?
    case _ => false
  }

  predicate Switch(sub: Sub, f: Flag) {
    match f
    case GlobalF => sub.SetS? || sub.UnsetS? || sub.PatchS? || sub.MigrateS? || sub.RefreshDocsS?
    case AcknowledgeF => sub.UnsetS?
    case DryRunF => sub.MigrateS?
    case FinishF => sub.MigrateS?
    case ConvertF => sub.MigrateS?
    case MachineCheckedF => sub.MigrateS?
    case AcceptOverridesF => sub.MigrateS?
    case _ => false
  }

  function Arity(sub: Sub): nat {
    match sub case ExplainS => 1 case SetS => 2 case UnsetS => 1 case PatchS => 1 case _ => 0
  }

  datatype Scanned = Scanned(values: map<Flag, string>, on: set<Flag>, positional: seq<string>)

  const NOTHING := Scanned(map[], {}, [])

  /** The value of `--dir` is read elsewhere. */
  function Stored(st: Scanned, f: Flag, value: string): Scanned {
    if f == DirF then st else st.(values := st.values[f := value])
  }

  function Scan(sub: Sub, st: Scanned, tokens: seq<string>): Result<Scanned, Error>
    decreases |tokens|
  {
    if tokens == [] then Ok(st)
    else
      match Lex(tokens[0])
      case Plain => Scan(sub, st.(positional := st.positional + [tokens[0]]), tokens[1..])
      case Opt(flag, inline) =>
        if flag == Some(JsonF) then Scan(sub, st, tokens[1..])
        else if flag.Some? && Switch(sub, flag.value) then Scan(sub, st.(on := st.on + {flag.value}), tokens[1..])
        else if flag.Some? && Valued(sub, flag.value) then
          if inline.Some? then Scan(sub, Stored(st, flag.value, inline.value), tokens[1..])
          else if |tokens| > 1 then Scan(sub, Stored(st, flag.value, tokens[1]), tokens[2..])
          else Err(RequiresValue(flag.value))
        else Err(UnknownOption(tokens[0]))
  }

  function Lookup(st: Scanned, f: Flag): Option<string> {
    if f in st.values then Some(st.values[f]) else None
  }

  function Reason(st: Scanned): string {
    if ReasonF in st.values then st.values[ReasonF] else ""
  }

  function BuildMigrate(on: set<Flag>): Result<Verb, Error> {
    if FinishF in on && GlobalF !in on then Err(FinishNeedsGlobal)
    else if ConvertF in on && (GlobalF !in on || FinishF in on) then Err(ConvertNeedsGlobalAlone)
    else if MachineCheckedF in on && FinishF !in on && ConvertF !in on then Err(MachineCheckedNeedsWrite)
    else if AcceptOverridesF in on && GlobalF in on then Err(AcceptIsForProject)
    else Ok(Migrate(GlobalF in on, FinishF in on, ConvertF in on, MachineCheckedF in on, AcceptOverridesF in on,
        DryRunF in on))
  }

  function Build(sub: Sub, st: Scanned): Result<Verb, Error> {
    if |st.positional| != Arity(sub) then Err(WrongCount(Arity(sub), |st.positional|))
    else
      match sub
      case ShowS => Ok(Show(Lookup(st, PathF)))
      case StandardS => Ok(Standard(Lookup(st, PathF)))
      case CheckS => Ok(Check)
      case ExplainS => Ok(Explain(st.positional[0]))
      case SetS => Ok(Set(st.positional[0], st.positional[1], Reason(st), GlobalF in st.on))
      case UnsetS => Ok(Unset(st.positional[0], Reason(st), GlobalF in st.on, AcknowledgeF in st.on))
      case PatchS => Ok(Patch(st.positional[0], Reason(st), GlobalF in st.on))
      case RefreshDocsS => Ok(RefreshDocs(GlobalF in st.on))
      case MigrateS => BuildMigrate(st.on)
  }

  function ParseSub(sub: Sub, tokens: seq<string>): Result<Verb, Error> {
    match Scan(sub, NOTHING, tokens)
    case Err(e) => Err(e)
    case Ok(st) => Build(sub, st)
  }

  function Parse(args: seq<string>): Result<Verb, Error> {
    if |args| < 2 then Err(NoSubcommand)
    else if SubOf(args[1]).None? then Err(UnknownSubcommand(args[1]))
    else ParseSub(SubOf(args[1]).value, args[2..])
  }

  method ScanTokens(sub: Sub, tokens: seq<string>) returns (r: Result<Scanned, Error>)
    ensures r == Scan(sub, NOTHING, tokens)
  {
    var values: map<Flag, string>, on: set<Flag>, positional: seq<string> := map[], {}, [];
    var i := 0;
    assert tokens[0..] == tokens;
    while i < |tokens|
      invariant 0 <= i <= |tokens|
      invariant Scan(sub, NOTHING, tokens) == Scan(sub, Scanned(values, on, positional), tokens[i..])
    {
      var token := tokens[i];
      assert tokens[i..][0] == token && tokens[i..][1..] == tokens[i + 1..];
      i := i + 1;
      match Lex(token) {
        case Plain => positional := positional + [token];
        case Opt(flag, inline) =>
          if flag == Some(JsonF) {
          } else if flag.Some? && Switch(sub, flag.value) {
            on := on + {flag.value};
          } else if flag.Some? && Valued(sub, flag.value) {
            var value: string;
            if inline.Some? {
              value := inline.value;
            } else if i < |tokens| {
              value := tokens[i];
              assert tokens[i - 1..][2..] == tokens[i + 1..] && tokens[i - 1..][1] == value;
              i := i + 1;
            } else {
              return Err(RequiresValue(flag.value));
            }
            if flag.value != DirF { values := values[flag.value := value]; }
          } else {
            return Err(UnknownOption(token));
          }
      }
    }
    r := Ok(Scanned(values, on, positional));
  }

  method ProjectConfigRequest(args: seq<string>) returns (r: Result<Verb, Error>)
    ensures r == Parse(args)
  {
    if |args| < 2 { return Err(NoSubcommand); }
    var sub := SubOf(args[1]);
    if sub.None? { return Err(UnknownSubcommand(args[1])); }
    var scanned := ScanTokens(sub.value, args[2..]);
    r := match scanned case Err(e) => Err(e) case Ok(st) => Build(sub.value, st);
  }

  // ---------- only consistent requests ----------

  predicate Consistent(v: Verb) {
    v.Migrate? ==>
      && (v.finish ==> v.global)
      && (v.convert ==> v.global && !v.finish)
      && (v.machineChecked ==> v.finish || v.convert)
      && (v.acceptOverrides ==> !v.global)
  }

  function Arguments(v: Verb): seq<string> {
    match v
    case Explain(at) => [at]
    case Set(at, value, _, _) => [at, value]
    case Unset(at, _, _, _) => [at]
    case Patch(file, _, _) => [file]
    case _ => []
  }

  /** No argument reads as an option. */
  predicate Speakable(v: Verb) {
    forall k :: 0 <= k < |Arguments(v)| ==> !("--" <= Arguments(v)[k])
  }

  lemma {:induction false} PositionalsAreNoOptions(sub: Sub, st: Scanned, tokens: seq<string>)
    requires forall k :: 0 <= k < |st.positional| ==> !("--" <= st.positional[k])
    ensures var r := Scan(sub, st, tokens);
      r.Ok? ==> forall k :: 0 <= k < |r.value.positional| ==> !("--" <= r.value.positional[k])
    decreases |tokens|
  {
    if tokens != [] {
      match Lex(tokens[0])
      case Plain => PositionalsAreNoOptions(sub, st.(positional := st.positional + [tokens[0]]), tokens[1..]);
      case Opt(flag, inline) =>
        if flag == Some(JsonF) {
          PositionalsAreNoOptions(sub, st, tokens[1..]);
        } else if flag.Some? && Switch(sub, flag.value) {
          PositionalsAreNoOptions(sub, st.(on := st.on + {flag.value}), tokens[1..]);
        } else if flag.Some? && Valued(sub, flag.value) {
          if inline.Some? {
            PositionalsAreNoOptions(sub, Stored(st, flag.value, inline.value), tokens[1..]);
          } else if |tokens| > 1 {
            PositionalsAreNoOptions(sub, Stored(st, flag.value, tokens[1]), tokens[2..]);
          }
        }
    }
  }

  /** Whatever the arguments, an accepted request is consistent and none of its arguments reads as an option. */
  lemma AcceptsOnlyConsistent(args: seq<string>, v: Verb)
    requires Parse(args) == Ok(v)
    ensures Consistent(v) && Speakable(v)
  {
    var sub := SubOf(args[1]).value;
    PositionalsAreNoOptions(sub, NOTHING, args[2..]);
  }

  // ---------- canonical arguments ----------

  /** A group of tokens that is read as one thing. */
  datatype Group =
    | ValueG(flag: Flag, text: string) | InlineG(flag: Flag, text: string) | SwitchG(flag: Flag)
    | PlainG(text: string) | JsonG | ValuedSwitchG(flag: Flag, text: string) | ValuedJsonG(text: string)

  function Spell(g: Group): seq<string> {
    match g
    case ValueG(f, text) => [FlagText(f), text]
    case InlineG(f, text) => [FlagText(f) + "=" + text]
    case SwitchG(f) => [FlagText(f)]
    case PlainG(text) => [text]
    case JsonG => [FlagText(JsonF)]
    case ValuedSwitchG(f, text) => [FlagText(f) + "=" + text]
    case ValuedJsonG(text) => [FlagText(JsonF) + "=" + text]
  }

  predicate GroupFits(sub: Sub, g: Group) {
    match g
    case ValueG(f, _) => Valued(sub, f)
    case InlineG(f, _) => Valued(sub, f)
    case SwitchG(f) => Switch(sub, f)
    case PlainG(text) => !("--" <= text)
    case JsonG => true
    case ValuedSwitchG(f, _) => Switch(sub, f)
    case ValuedJsonG(_) => true
  }

  function Apply(st: Scanned, g: Group): Scanned {
    match g
    case ValueG(f, text) => Stored(st, f, text)
    case InlineG(f, text) => Stored(st, f, text)
    case SwitchG(f) => st.(on := st.on + {f})
    case PlainG(text) => st.(positional := st.positional + [text])
    case JsonG => st
    case ValuedSwitchG(f, _) => st.(on := st.on + {f})
    case ValuedJsonG(_) => st
  }

  lemma LexOfFlag(f: Flag, text: string)
    ensures Lex(FlagText(f)) == Opt(Some(f), None)
    ensures Lex(FlagText(f) + "=" + text) == Opt(Some(f), Some(text))
  {
    FlagOfText(f);
    Text.SplitOnceOfPlain(FlagText(f), '=');
    Text.SplitOnceAtSeparator(FlagText(f), text, '=');
    var token := FlagText(f) + "=" + text;
    assert token == FlagText(f) + ['='] + text;
    assert token[..2] == FlagText(f)[..2];
  }

  function FlagIn(g: Group): Flag
    requires !g.PlainG?
  {
    if g.JsonG? || g.ValuedJsonG? then JsonF else g.flag
  }

  function TextIn(g: Group): string {
    match g
    case SwitchG(_) => ""
    case JsonG => ""
    case _ => g.text
  }

  lemma PairIsRead(sub: Sub, st: Scanned, f: Flag, text: string, rest: seq<string>)
    requires Valued(sub, f)
    ensures Scan(sub, st, [FlagText(f), text] + rest) == Scan(sub, Stored(st, f, text), rest)
  {
    var tokens := [FlagText(f), text] + rest;
    LexOfFlag(f, "");
    assert tokens[2..] == rest && tokens[0] == FlagText(f) && tokens[1] == text;
  }

  lemma ArgumentIsRead(sub: Sub, st: Scanned, word: string, rest: seq<string>)
    requires !("--" <= word)
    ensures Scan(sub, st, [word] + rest) == Scan(sub, st.(positional := st.positional + [word]), rest)
  {
    var tokens := [word] + rest;
    assert tokens[1..] == rest && tokens[0] == word;
  }

  lemma WordIsRead(sub: Sub, st: Scanned, g: Group, word: string, rest: seq<string>)
    requires GroupFits(sub, g) && !g.ValueG? && !g.PlainG?
    requires Lex(word) == Opt(Some(FlagIn(g)), if g.SwitchG? || g.JsonG? then None else Some(TextIn(g)))
    ensures Scan(sub, st, [word] + rest) == Scan(sub, Apply(st, g), rest)
  {
    var tokens := [word] + rest;
    assert tokens[1..] == rest && tokens[0] == word;
  }

  /** A group is read as what it says, whatever follows it. */
  lemma GroupIsRead(sub: Sub, st: Scanned, g: Group, rest: seq<string>)
    requires GroupFits(sub, g)
    ensures Scan(sub, st, Spell(g) + rest) == Scan(sub, Apply(st, g), rest)
  {
    if g.ValueG? {
      PairIsRead(sub, st, g.flag, g.text, rest);
    } else if g.PlainG? {
      ArgumentIsRead(sub, st, g.text, rest);
    } else {
      LexOfFlag(FlagIn(g), TextIn(g));
      WordIsRead(sub, st, g, Spell(g)[0], rest);
    }
  }

  function SpellAll(gs: seq<Group>): seq<string> {
    if gs == [] then [] else Spell(gs[0]) + SpellAll(gs[1..])
  }

  function ApplyAll(st: Scanned, gs: seq<Group>): Scanned
    decreases |gs|
  {
    if gs == [] then st else ApplyAll(Apply(st, gs[0]), gs[1..])
  }

  predicate AllFit(sub: Sub, gs: seq<Group>) {
    gs == [] || (GroupFits(sub, gs[0]) && AllFit(sub, gs[1..]))
  }

  lemma {:induction false} GroupsAreRead(sub: Sub, st: Scanned, gs: seq<Group>, rest: seq<string>)
    requires AllFit(sub, gs)
    ensures Scan(sub, st, SpellAll(gs) + rest) == Scan(sub, ApplyAll(st, gs), rest)
    decreases |gs|
  {
    if gs == [] {
      assert SpellAll(gs) + rest == rest;
    } else {
      assert SpellAll(gs) + rest == Spell(gs[0]) + (SpellAll(gs[1..]) + rest);
      GroupIsRead(sub, st, gs[0], SpellAll(gs[1..]) + rest);
      GroupsAreRead(sub, Apply(st, gs[0]), gs[1..], rest);
    }
  }

  lemma FlagTextOf(s: string)
    ensures FlagOf(s).Some? ==> FlagText(FlagOf(s).value) == s
  {
  }

  function Spelled(f: Flag, inline: Option<string>): string {
    if inline.None? then FlagText(f) else FlagText(f) + "=" + inline.value
  }

  lemma LexInverse(token: string)
    ensures match Lex(token)
      case Plain => !("--" <= token)
      case Opt(flag, inline) =>
        flag.Some? ==> token == Spelled(flag.value, inline)
  {
    Text.JoinAfterSplitOnce(token, '=');
    FlagTextOf(token);
    var cut := Text.SplitOnce(token, '=');
    if cut.At? {
      FlagTextOf(cut.head);
      assert token == cut.head + "=" + cut.tail;
    }
  }

  /** The first token is known, and has its value if it needs one. */
  predicate HeadReads(sub: Sub, tokens: seq<string>) {
    tokens != [] &&
    match Lex(tokens[0])
    case Plain => true
    case Opt(flag, inline) =>
      && flag.Some?
      && (flag.value == JsonF || Switch(sub, flag.value) || (Valued(sub, flag.value) && (inline.Some? || |tokens| > 1)))
  }

  /** The group at the head of the tokens. */
  lemma FirstGroup(sub: Sub, tokens: seq<string>) returns (g: Group, rest: seq<string>)
    requires HeadReads(sub, tokens)
    ensures GroupFits(sub, g) && tokens == Spell(g) + rest
  {
    LexInverse(tokens[0]);
    rest := tokens[1..];
    assert tokens == [tokens[0]] + tokens[1..];
    match Lex(tokens[0])
    case Plain => g := PlainG(tokens[0]);
    case Opt(flag, inline) =>
      var f := flag.value;
      if f == JsonF {
        g := if inline.Some? then ValuedJsonG(inline.value) else JsonG;
      } else if Switch(sub, f) {
        g := if inline.Some? then ValuedSwitchG(f, inline.value) else SwitchG(f);
      } else if inline.Some? {
        g := InlineG(f, inline.value);
      } else {
        g, rest := ValueG(f, tokens[1]), tokens[2..];
        assert tokens == [tokens[0], tokens[1]] + tokens[2..];
      }
  }

  /** Tokens that are read without an error are a list of groups. */
  lemma {:induction false} TokensAreGroups(sub: Sub, st: Scanned, tokens: seq<string>) returns (gs: seq<Group>)
    requires Scan(sub, st, tokens).Ok?
    ensures AllFit(sub, gs) && tokens == SpellAll(gs) && Scan(sub, st, tokens) == Ok(ApplyAll(st, gs))
    decreases |tokens|
  {
    gs := [];
    if tokens != [] {
      var g, rest := FirstGroup(sub, tokens);
      GroupIsRead(sub, st, g, rest);
      var tail := TokensAreGroups(sub, Apply(st, g), rest);
      gs := [g] + tail;
      assert gs[1..] == tail;
    }
  }

  ghost predicate SpelledBy(sub: Sub, tokens: seq<string>, gs: seq<Group>) {
    AllFit(sub, gs) && tokens == SpellAll(gs)
  }

  /** The accepted arguments are exactly the lists of fitting groups from which the request is built. */
  lemma AcceptedIff(sub: Sub, tokens: seq<string>, v: Verb)
    ensures ParseSub(sub, tokens) == Ok(v) <==>
            exists gs :: SpelledBy(sub, tokens, gs) && Build(sub, ApplyAll(NOTHING, gs)) == Ok(v)
  {
    if ParseSub(sub, tokens) == Ok(v) {
      var gs := TokensAreGroups(sub, NOTHING, tokens);
      assert SpelledBy(sub, tokens, gs);
    }
    if gs :| SpelledBy(sub, tokens, gs) && Build(sub, ApplyAll(NOTHING, gs)) == Ok(v) {
      GroupsAreRead(sub, NOTHING, gs, []);
      assert tokens + [] == tokens;
    }
  }

  function SubFor(v: Verb): Sub {
    match v
    case Show(_) => ShowS case Standard(_) => StandardS case Check => CheckS case Explain(_) => ExplainS
    case Set(_, _, _, _) => SetS case Unset(_, _, _, _) => UnsetS case Patch(_, _, _) => PatchS
    case Migrate(_, _, _, _, _, _) => MigrateS case RefreshDocs(_) => RefreshDocsS
  }

  function SwitchIf(given: bool, f: Flag): seq<Group> { if given then [SwitchG(f)] else [] }

  function ReasonIf(reason: string): seq<Group> { if reason == "" then [] else [ValueG(ReasonF, reason)] }

  function PathIf(path: Option<string>): seq<Group> { if path.None? then [] else [ValueG(PathF, path.value)] }

  function Groups(v: Verb): seq<Group> {
    match v
    case Show(path) => PathIf(path)
    case Standard(path) => PathIf(path)
    case Check => []
    case Explain(at) => [PlainG(at)]
    case Set(at, value, reason, global) => ReasonIf(reason) + (SwitchIf(global, GlobalF) + [PlainG(at), PlainG(value)])
    case Unset(at, reason, global, acknowledge) =>
      ReasonIf(reason) + (SwitchIf(global, GlobalF) + (SwitchIf(acknowledge, AcknowledgeF) + [PlainG(at)]))
    case Patch(file, reason, global) => ReasonIf(reason) + (SwitchIf(global, GlobalF) + [PlainG(file)])
    case RefreshDocs(global) => SwitchIf(global, GlobalF)
    case Migrate(global, finish, convert, machineChecked, acceptOverrides, dryRun) =>
      SwitchIf(global, GlobalF) + (SwitchIf(finish, FinishF) + (SwitchIf(convert, ConvertF)
      + (SwitchIf(machineChecked, MachineCheckedF) +
          (SwitchIf(acceptOverrides, AcceptOverridesF) + SwitchIf(dryRun, DryRunF)))))
  }

  function Render(v: Verb): seq<string> {
    ["config", SubText(SubFor(v))] + SpellAll(Groups(v))
  }

  function OnIf(given: bool, f: Flag): set<Flag> { if given then {f} else {} }

  function ReasonValues(reason: string): map<Flag, string> { if reason == "" then map[] else map[][ReasonF := reason] }

  lemma ApplySwitchIf(sub: Sub, st: Scanned, given: bool, f: Flag, rest: seq<Group>)
    requires Switch(sub, f)
    ensures ApplyAll(st, SwitchIf(given, f) + rest) == ApplyAll(st.(on := st.on + OnIf(given, f)), rest)
    ensures AllFit(sub, rest) ==> AllFit(sub, SwitchIf(given, f) + rest)
  {
    var gs := SwitchIf(given, f) + rest;
    if given { assert gs[1..] == rest; } else { assert gs == rest && st.on + {} == st.on; }
  }

  lemma ApplyReasonIf(sub: Sub, reason: string, rest: seq<Group>)
    requires Valued(sub, ReasonF)
    ensures ApplyAll(NOTHING, ReasonIf(reason) + rest) == ApplyAll(Scanned(ReasonValues(reason), {}, []), rest)
    ensures AllFit(sub, rest) ==> AllFit(sub, ReasonIf(reason) + rest)
  {
    var gs := ReasonIf(reason) + rest;
    if reason != "" { assert gs[1..] == rest; } else { assert gs == rest; }
  }

  lemma ApplyArgument(sub: Sub, st: Scanned, text: string, rest: seq<Group>)
    requires !("--" <= text)
    ensures ApplyAll(st, [PlainG(text)] + rest) == ApplyAll(st.(positional := st.positional + [text]), rest)
    ensures AllFit(sub, rest) ==> AllFit(sub, [PlainG(text)] + rest)
  {
  }

  lemma WriteGroups(sub: Sub, reason: string, global: bool, rest: seq<Group>)
    requires Valued(sub, ReasonF) && Switch(sub, GlobalF)
    ensures ApplyAll(NOTHING, ReasonIf(reason) + (SwitchIf(global, GlobalF) + rest)) ==
            ApplyAll(Scanned(ReasonValues(reason), {} + OnIf(global, GlobalF), []), rest)
    ensures AllFit(sub, rest) ==> AllFit(sub, ReasonIf(reason) + (SwitchIf(global, GlobalF) + rest))
  {
    ApplyReasonIf(sub, reason, SwitchIf(global, GlobalF) + rest);
    ApplySwitchIf(sub, Scanned(ReasonValues(reason), {}, []), global, GlobalF, rest);
  }

  function MigrateOn(v: Verb): set<Flag>
    requires v.Migrate?
  {
    {} + OnIf(v.global, GlobalF) + OnIf(v.finish, FinishF) + OnIf(v.convert, ConvertF)
    + OnIf(v.machineChecked, MachineCheckedF) + OnIf(v.acceptOverrides, AcceptOverridesF) + OnIf(v.dryRun, DryRunF)
  }

  lemma MigrateGroups(v: Verb)
    requires v.Migrate?
    ensures AllFit(MigrateS, Groups(v))
    ensures ApplyAll(NOTHING, Groups(v)) == Scanned(map[], MigrateOn(v), [])
  {
    var g5 := SwitchIf(v.dryRun, DryRunF);
    var g4 := SwitchIf(v.acceptOverrides, AcceptOverridesF) + g5;
    var g3 := SwitchIf(v.machineChecked, MachineCheckedF) + g4;
    var g2 := SwitchIf(v.convert, ConvertF) + g3;
    var g1 := SwitchIf(v.finish, FinishF) + g2;
    var on0 := {} + OnIf(v.global, GlobalF);
    var on1 := on0 + OnIf(v.finish, FinishF);
    var on2 := on1 + OnIf(v.convert, ConvertF);
    var on3 := on2 + OnIf(v.machineChecked, MachineCheckedF);
    var on4 := on3 + OnIf(v.acceptOverrides, AcceptOverridesF);
    assert g5 == g5 + [];
    ApplySwitchIf(MigrateS, Scanned(map[], on4, []), v.dryRun, DryRunF, []);
    ApplySwitchIf(MigrateS, Scanned(map[], on3, []), v.acceptOverrides, AcceptOverridesF, g5);
    ApplySwitchIf(MigrateS, Scanned(map[], on2, []), v.machineChecked, MachineCheckedF, g4);
    ApplySwitchIf(MigrateS, Scanned(map[], on1, []), v.convert, ConvertF, g3);
    ApplySwitchIf(MigrateS, Scanned(map[], on0, []), v.finish, FinishF, g2);
    ApplySwitchIf(MigrateS, NOTHING, v.global, GlobalF, g1);
  }

  lemma MigrateBuilds(v: Verb)
    requires v.Migrate? && Consistent(v)
    ensures BuildMigrate(MigrateOn(v)) == Ok(v)
  {
  }

  /** The rendered options of a verb are read as exactly what the verb is built from. */
  lemma GroupsBuild(v: Verb)
    requires Consistent(v) && Speakable(v)
    ensures AllFit(SubFor(v), Groups(v)) && Build(SubFor(v), ApplyAll(NOTHING, Groups(v))) == Ok(v)
  {
    match v
    case Show(path) =>
    case Standard(path) =>
    case Check =>
    case Explain(at) => ExplainBuilds(v);
    case Set(at, value, reason, global) => SetBuilds(v);
    case Unset(at, reason, global, acknowledge) => UnsetBuilds(v);
    case Patch(file, reason, global) => PatchBuilds(v);
    case RefreshDocs(global) => RefreshDocsBuilds(v);
    case Migrate(_, _, _, _, _, _) =>
      MigrateGroups(v);
      MigrateBuilds(v);
  }

  lemma ExplainBuilds(v: Verb)
    requires v.Explain? && Speakable(v)
    ensures AllFit(ExplainS, Groups(v)) && Build(ExplainS, ApplyAll(NOTHING, Groups(v))) == Ok(v)
  {
    assert Arguments(v)[0] == v.at;
    ApplyArgument(ExplainS, NOTHING, v.at, []);
    assert Groups(v) == [PlainG(v.at)] + [];
  }

  lemma PatchBuilds(v: Verb)
    requires v.Patch? && Speakable(v)
    ensures AllFit(PatchS, Groups(v)) && Build(PatchS, ApplyAll(NOTHING, Groups(v))) == Ok(v)
  {
    var st := Scanned(ReasonValues(v.reason), {} + OnIf(v.global, GlobalF), []);
    assert Arguments(v)[0] == v.file;
    WriteGroups(PatchS, v.reason, v.global, [PlainG(v.file)]);
    ApplyArgument(PatchS, st, v.file, []);
    assert [PlainG(v.file)] == [PlainG(v.file)] + [];
  }

  lemma RefreshDocsBuilds(v: Verb)
    requires v.RefreshDocs?
    ensures AllFit(RefreshDocsS, Groups(v)) && Build(RefreshDocsS, ApplyAll(NOTHING, Groups(v))) == Ok(v)
  {
  }

  lemma SetBuilds(v: Verb)
    requires v.Set? && Speakable(v)
    ensures AllFit(SetS, Groups(v)) && Build(SetS, ApplyAll(NOTHING, Groups(v))) == Ok(v)
  {
    var st := Scanned(ReasonValues(v.reason), {} + OnIf(v.global, GlobalF), []);
    assert Arguments(v)[0] == v.at && Arguments(v)[1] == v.value;
    assert [PlainG(v.at), PlainG(v.value)] == [PlainG(v.at)] + [PlainG(v.value)];
    WriteGroups(SetS, v.reason, v.global, [PlainG(v.at)] + [PlainG(v.value)]);
    ApplyArgument(SetS, st, v.at, [PlainG(v.value)]);
    ApplyArgument(SetS, st.(positional := [] + [v.at]), v.value, []);
    assert [PlainG(v.value)] == [PlainG(v.value)] + [];
  }

  lemma UnsetBuilds(v: Verb)
    requires v.Unset? && Speakable(v)
    ensures AllFit(UnsetS, Groups(v)) && Build(UnsetS, ApplyAll(NOTHING, Groups(v))) == Ok(v)
  {
    var st := Scanned(ReasonValues(v.reason), {} + OnIf(v.global, GlobalF), []);
    assert Arguments(v)[0] == v.at;
    WriteGroups(UnsetS, v.reason, v.global, SwitchIf(v.acknowledge, AcknowledgeF) + [PlainG(v.at)]);
    ApplySwitchIf(UnsetS, st, v.acknowledge, AcknowledgeF, [PlainG(v.at)]);
    ApplyArgument(UnsetS, st.(on := st.on + OnIf(v.acknowledge, AcknowledgeF)), v.at, []);
    assert [PlainG(v.at)] == [PlainG(v.at)] + [];
  }

  /** Reading the canonical arguments of a request gives the request back, for every verb. */
  lemma ParseAfterRender(v: Verb)
    requires Consistent(v) && Speakable(v)
    ensures Parse(Render(v)) == Ok(v)
  {
    var sub := SubFor(v);
    GroupsBuild(v);
    GroupsAreRead(sub, NOTHING, Groups(v), []);
    assert SpellAll(Groups(v)) + [] == SpellAll(Groups(v));
    SubOfText(sub);
    assert Render(v)[2..] == SpellAll(Groups(v)) && Render(v)[1] == SubText(sub);
  }

  /** The requests the parser can give are exactly the consistent ones that can be said. */
  lemma RequestsIff(v: Verb)
    ensures (exists args :: Parse(args) == Ok(v)) <==> Consistent(v) && Speakable(v)
  {
    if args :| Parse(args) == Ok(v) { AcceptsOnlyConsistent(args, v); }
    if Consistent(v) && Speakable(v) { ParseAfterRender(v); }
  }

  // ---------- which flag does what ----------

  /** The request turns the switch on. */
  predicate TurnsOn(v: Verb, f: Flag) {
    match f
    case GlobalF => (v.Set? || v.Unset? || v.Patch? || v.Migrate? || v.RefreshDocs?) && v.global
    case AcknowledgeF => v.Unset? && v.acknowledge
    case DryRunF => v.Migrate? && v.dryRun
    case FinishF => v.Migrate? && v.finish
    case ConvertF => v.Migrate? && v.convert
    case MachineCheckedF => v.Migrate? && v.machineChecked
    case AcceptOverridesF => v.Migrate? && v.acceptOverrides
    case _ => false
  }

  /** The request holds a value of the flag. */
  predicate HoldsValue(v: Verb, f: Flag) {
    match f
    case PathF => (v.Show? || v.Standard?) && v.path.Some?
    case ReasonF => (v.Set? || v.Unset? || v.Patch?) && v.reason != ""
    case _ => false
  }

  ghost predicate SomeTurnsOn(sub: Sub, f: Flag) {
    exists v :: SubFor(v) == sub && Consistent(v) && Speakable(v) && TurnsOn(v, f)
  }

  ghost predicate SomeHoldsValue(sub: Sub, f: Flag) {
    exists v :: SubFor(v) == sub && Consistent(v) && Speakable(v) && HoldsValue(v, f)
  }

  function SwitchExample(sub: Sub, f: Flag): Verb {
    match sub
    case SetS => Set("a", "a", "a", true)
    case UnsetS => Unset("a", "a", true, true)
    case PatchS => Patch("a", "a", true)
    case RefreshDocsS => RefreshDocs(true)
    case MigrateS => if f == AcceptOverridesF then Migrate(false, false, false, false, true, true)
                     else if f == ConvertF then Migrate(true, false, true, true, false, true)
                     else Migrate(true, true, false, true, false, true)
    case ShowS => Show(Some("a"))
    case StandardS => Standard(Some("a"))
    case CheckS => Check
    case ExplainS => Explain("a")
  }

  /** A verb takes a switch, or a value besides `--dir`, exactly when some request of it depends on that. */
  lemma FlagsIff(sub: Sub, f: Flag)
    ensures Switch(sub, f) <==> SomeTurnsOn(sub, f)
    ensures Valued(sub, f) <==> f == DirF || SomeHoldsValue(sub, f)
  {
    var v := SwitchExample(sub, f);
    assert SubFor(v) == sub && Consistent(v) && Speakable(v);
  }

  /** A request is built from a state exactly when the state is its verb's, holds its arguments, turns on its switches
    * and no other of the verb's, holds its path or no path, and its reason or, for an empty reason, maybe none. */
  lemma BuildIff(sub: Sub, st: Scanned, v: Verb)
    ensures Build(sub, st) == Ok(v) <==>
      && sub == SubFor(v) && st.positional == Arguments(v) && Consistent(v)
      && (forall f {:trigger TurnsOn(v, f)} :: Switch(sub, f) ==> (f in st.on <==> TurnsOn(v, f)))
      && (v.Show? || v.Standard? ==> v.path == if PathF in st.values then Some(st.values[PathF]) else None)
      && (v.Set? || v.Unset? || v.Patch? ==> v.reason == if ReasonF in st.values then st.values[ReasonF] else "")
  {
    if |st.positional| == 1 { assert st.positional == [st.positional[0]]; }
    if |st.positional| == 2 { assert st.positional == [st.positional[0], st.positional[1]]; }
    if sub == SubFor(v) { SwitchesOf(v, st.on); }
  }

  /** What the error of a state from which nothing is built says. */
  lemma BuildErrorSays(sub: Sub, st: Scanned, e: Error)
    requires Build(sub, st) == Err(e)
    ensures match e
      case WrongCount(n, got) => got == |st.positional| != n && forall v :: SubFor(v) == sub ==> |Arguments(v)| == n
      case FinishNeedsGlobal => sub.MigrateS? && FinishF in st.on && GlobalF !in st.on
      case ConvertNeedsGlobalAlone => sub.MigrateS? && ConvertF in st.on && (GlobalF !in st.on || FinishF in st.on)
      case MachineCheckedNeedsWrite =>
        sub.MigrateS? && MachineCheckedF in st.on && FinishF !in st.on && ConvertF !in st.on
      case AcceptIsForProject => sub.MigrateS? && AcceptOverridesF in st.on && GlobalF in st.on
      case _ => false
  {
  }

  lemma SwitchesOf(v: Verb, on: set<Flag>)
    ensures (forall f {:trigger TurnsOn(v, f)} :: Switch(SubFor(v), f) ==> (f in on <==> TurnsOn(v, f))) <==>
      && (v.Set? || v.Patch? || v.RefreshDocs? ==> (GlobalF in on <==> v.global))
      && (v.Unset? ==> (GlobalF in on <==> v.global) && (AcknowledgeF in on <==> v.acknowledge))
      && (v.Migrate? ==>
            && (GlobalF in on <==> v.global) && (FinishF in on <==> v.finish) && (ConvertF in on <==> v.convert)
            && (MachineCheckedF in on <==> v.machineChecked) && (AcceptOverridesF in on <==> v.acceptOverrides)
            && (DryRunF in on <==> v.dryRun))
  {
    assert TurnsOn(v, AcknowledgeF) <==> v.Unset? && v.acknowledge;
    assert TurnsOn(v, GlobalF) <==> (v.Set? || v.Unset? || v.Patch? || v.Migrate? || v.RefreshDocs?) && v.global;
    if v.Migrate? {
      assert TurnsOn(v, FinishF) == v.finish && TurnsOn(v, ConvertF) == v.convert && TurnsOn(v, DryRunF) == v.dryRun;
      assert TurnsOn(v, MachineCheckedF) == v.machineChecked && TurnsOn(v, AcceptOverridesF) == v.acceptOverrides;
    }
  }

  /** Group `k` gives the flag this value. */
  predicate GivesValue(gs: seq<Group>, k: nat, f: Flag, text: string) {
    k < |gs| && f != DirF && (gs[k] == ValueG(f, text) || gs[k] == InlineG(f, text))
  }

  /** Group `k` is the last that gives the flag a value. */
  ghost predicate LastGives(gs: seq<Group>, k: nat, f: Flag, text: string) {
    && GivesValue(gs, k, f, text)
    && forall j: nat, other {:trigger GivesValue(gs, j, f, other)} :: j > k ==> !GivesValue(gs, j, f, other)
  }

  predicate TurnsOnAt(gs: seq<Group>, k: nat, f: Flag) {
    k < |gs| && (gs[k] == SwitchG(f) || (gs[k].ValuedSwitchG? && gs[k].flag == f))
  }

  lemma {:induction false} ApplyLast(st: Scanned, gs: seq<Group>, g: Group)
    ensures ApplyAll(st, gs + [g]) == Apply(ApplyAll(st, gs), g)
    decreases |gs|
  {
    if gs == [] {
      assert gs + [g] == [g];
    } else {
      ApplyLast(Apply(st, gs[0]), gs[1..], g);
      assert (gs + [g])[1..] == gs[1..] + [g];
    }
  }

  /** Of several values of a flag the last one counts. */
  lemma {:induction false} LastValueCounts(gs: seq<Group>, f: Flag, text: string)
    ensures var st := ApplyAll(NOTHING, gs);
      f in st.values && st.values[f] == text <==> exists k: nat :: LastGives(gs, k, f, text)
  {
    if gs != [] {
      var n := |gs| - 1;
      var front, g := gs[..n], gs[n];
      assert gs == front + [g];
      ApplyLast(NOTHING, front, g);
      LastValueCounts(front, f, text);
      LastOfOneMore(front, g, f, text);
    }
  }

  lemma LastOfOneMore(front: seq<Group>, g: Group, f: Flag, text: string)
    ensures (exists k: nat :: LastGives(front + [g], k, f, text)) <==>
            if f != DirF && (g.ValueG? || g.InlineG?) && g.flag == f then g.text == text
            else exists k: nat :: LastGives(front, k, f, text)
  {
    var n, gs := |front|, front + [g];
    forall k: nat, other ensures GivesValue(gs, k, f, other) <==>
        GivesValue(front, k, f, other) || (k == n && f != DirF && (g == ValueG(f, other) || g == InlineG(f, other))) {
    }
    if f != DirF && (g.ValueG? || g.InlineG?) && g.flag == f {
      assert GivesValue(gs, n, f, g.text);
      assert g.text == text ==> LastGives(gs, n, f, text);
    } else {
      forall k: nat ensures LastGives(gs, k, f, text) <==> LastGives(front, k, f, text) {
      }
    }
  }

  /** A switch is on when it is given anywhere. */
  lemma {:induction false} SwitchCounts(gs: seq<Group>, f: Flag)
    ensures f in ApplyAll(NOTHING, gs).on <==> exists k: nat :: TurnsOnAt(gs, k, f)
  {
    if gs != [] {
      var n := |gs| - 1;
      var front, g := gs[..n], gs[n];
      assert gs == front + [g];
      ApplyLast(NOTHING, front, g);
      SwitchCounts(front, f);
      assert TurnsOnAt(gs, n, f) <==> g == SwitchG(f) || (g.ValuedSwitchG? && g.flag == f);
      assert forall k: nat :: k < n ==> (TurnsOnAt(gs, k, f) <==> TurnsOnAt(front, k, f));
    }
  }

  // ---------- equivalent arguments ----------

  ghost predicate SpelledWaiting(sub: Sub, tokens: seq<string>, gs: seq<Group>, f: Flag) {
    AllFit(sub, gs) && Valued(sub, f) && tokens == SpellAll(gs) + [FlagText(f)]
  }

  /** Groups, and then a value-taking flag without its value. */
  ghost predicate Waits(sub: Sub, tokens: seq<string>) {
    exists gs, f :: SpelledWaiting(sub, tokens, gs, f)
  }

  lemma {:induction false} WaitingTokens(sub: Sub, st: Scanned, tokens: seq<string>) returns (gs: seq<Group>, f: Flag)
    requires Scan(sub, st, tokens).Err? && Scan(sub, st, tokens).error.RequiresValue?
    ensures SpelledWaiting(sub, tokens, gs, f)
    decreases |tokens|
  {
    if HeadReads(sub, tokens) {
      var g, rest := FirstGroup(sub, tokens);
      GroupIsRead(sub, st, g, rest);
      var tail: seq<Group>;
      tail, f := WaitingTokens(sub, Apply(st, g), rest);
      gs := [g] + tail;
      assert ([g] + tail)[1..] == tail;
    } else {
      gs, f := [], Lex(tokens[0]).flag.value;
      LexInverse(tokens[0]);
      assert tokens == [tokens[0]];
    }
  }

  lemma WaitingIsRead(sub: Sub, st: Scanned, gs: seq<Group>, f: Flag, more: seq<string>)
    requires AllFit(sub, gs) && Valued(sub, f)
    ensures Scan(sub, st, SpellAll(gs) + ([FlagText(f)] + more)) ==
            if more == [] then Err(RequiresValue(f)) else Scan(sub, Stored(ApplyAll(st, gs), f, more[0]), more[1..])
  {
    GroupsAreRead(sub, st, gs, [FlagText(f)] + more);
    LexOfFlag(f, "");
    if more != [] { assert ([FlagText(f)] + more)[2..] == more[1..]; }
  }

  /** A value is missing exactly from such tokens. */
  lemma MissingValueIff(sub: Sub, tokens: seq<string>)
    ensures Waits(sub, tokens) <==> Scan(sub, NOTHING, tokens).Err? && Scan(sub, NOTHING, tokens).error.RequiresValue?
  {
    if Scan(sub, NOTHING, tokens).Err? && Scan(sub, NOTHING, tokens).error.RequiresValue? {
      var gs, f := WaitingTokens(sub, NOTHING, tokens);
    }
    if gs, f :| SpelledWaiting(sub, tokens, gs, f) {
      WaitingIsRead(sub, NOTHING, gs, f, []);
      assert [FlagText(f)] + [] == [FlagText(f)];
    }
  }

  /** An option that is neither known nor taken by the verb, with or without a value. */
  ghost predicate Unread(sub: Sub, token: string) {
    "--" <= token
    && forall f :: token == FlagText(f) || FlagText(f) + "=" <= token ==>
         f != JsonF && !Switch(sub, f) && !Valued(sub, f)
  }

  lemma UnreadIff(sub: Sub, token: string)
    ensures Unread(sub, token) <==>
      && Lex(token).Opt?
      && var flag := Lex(token).flag;
        flag.None? || (flag.value != JsonF && !Switch(sub, flag.value) && !Valued(sub, flag.value))
  {
    LexInverse(token);
    forall f | token == FlagText(f) || FlagText(f) + "=" <= token
      ensures Lex(token).Opt? && Lex(token).flag == Some(f)
    {
      FlagIsLexed(f, token);
    }
  }

  lemma FlagIsLexed(f: Flag, token: string)
    requires token == FlagText(f) || FlagText(f) + "=" <= token
    ensures Lex(token).Opt? && Lex(token).flag == Some(f)
  {
    var text := if token == FlagText(f) then "" else token[|FlagText(f)| + 1..];
    LexOfFlag(f, text);
    assert token == FlagText(f) || token == FlagText(f) + "=" + text;
  }

  ghost predicate SpelledUnread(sub: Sub, tokens: seq<string>, gs: seq<Group>, token: string, more: seq<string>) {
    AllFit(sub, gs) && Unread(sub, token) && tokens == SpellAll(gs) + ([token] + more)
  }

  lemma {:induction false} UnreadTokens(sub: Sub, st: Scanned, tokens: seq<string>)
      returns (gs: seq<Group>, token: string, more: seq<string>)
    requires Scan(sub, st, tokens).Err? && Scan(sub, st, tokens).error.UnknownOption?
    ensures Scan(sub, st, tokens) == Err(UnknownOption(token)) && SpelledUnread(sub, tokens, gs, token, more)
    decreases |tokens|
  {
    if HeadReads(sub, tokens) {
      var g, rest := FirstGroup(sub, tokens);
      GroupIsRead(sub, st, g, rest);
      gs, token, more := UnreadTokens(sub, Apply(st, g), rest);
      UnreadAfter(sub, g, rest, gs, token, more);
      gs := [g] + gs;
    } else {
      gs, token, more := [], tokens[0], tokens[1..];
      UnreadHead(sub, st, tokens);
    }
  }

  lemma UnreadAfter(sub: Sub, g: Group, rest: seq<string>, gs: seq<Group>, token: string, more: seq<string>)
    requires GroupFits(sub, g) && SpelledUnread(sub, rest, gs, token, more)
    ensures SpelledUnread(sub, Spell(g) + rest, [g] + gs, token, more)
  {
    assert ([g] + gs)[1..] == gs;
    Regrouped(Spell(g), SpellAll(gs), [token] + more);
  }

  lemma UnreadHead(sub: Sub, st: Scanned, tokens: seq<string>)
    requires tokens != [] && !HeadReads(sub, tokens)
    requires Scan(sub, st, tokens).Err? && Scan(sub, st, tokens).error.UnknownOption?
    ensures Scan(sub, st, tokens) == Err(UnknownOption(tokens[0]))
    ensures SpelledUnread(sub, tokens, [], tokens[0], tokens[1..])
  {
    UnreadIff(sub, tokens[0]);
    assert tokens == [tokens[0]] + tokens[1..];
    assert SpellAll([]) + tokens == tokens;
  }

  /** An option is refused exactly when it comes after groups and the verb does not take it. */
  lemma UnknownOptionIff(sub: Sub, tokens: seq<string>, token: string)
    ensures Scan(sub, NOTHING, tokens) == Err(UnknownOption(token)) <==>
            exists gs, more :: SpelledUnread(sub, tokens, gs, token, more)
  {
    if Scan(sub, NOTHING, tokens) == Err(UnknownOption(token)) {
      var gs, t, more := UnreadTokens(sub, NOTHING, tokens);
    }
    if gs, more :| SpelledUnread(sub, tokens, gs, token, more) {
      GroupsAreRead(sub, NOTHING, gs, [token] + more);
      UnreadIff(sub, token);
    }
  }

  function ScanOn(sub: Sub, r: Result<Scanned, Error>, more: seq<string>): Result<Scanned, Error> {
    match r case Err(e) => r case Ok(st) => Scan(sub, st, more)
  }

  lemma {:induction false} ReadOnAfter(sub: Sub, st: Scanned, tokens: seq<string>, more: seq<string>)
    requires Scan(sub, st, tokens).Err? ==> !Scan(sub, st, tokens).error.RequiresValue?
    ensures Scan(sub, st, tokens + more) == ScanOn(sub, Scan(sub, st, tokens), more)
    decreases |tokens|
  {
    if tokens == [] {
      assert tokens + more == more;
    } else if HeadReads(sub, tokens) {
      var next, rest := FirstGroupIsRead(sub, st, tokens, more);
      ReadOnAfter(sub, next, rest, more);
    } else {
      UnknownHeadStays(sub, st, tokens, tokens + more);
    }
  }

  lemma FirstGroupIsRead(sub: Sub, st: Scanned, tokens: seq<string>, more: seq<string>)
      returns (next: Scanned, rest: seq<string>)
    requires HeadReads(sub, tokens)
    ensures |rest| < |tokens| && Scan(sub, st, tokens) == Scan(sub, next, rest)
    ensures Scan(sub, st, tokens + more) == Scan(sub, next, rest + more)
  {
    var g;
    g, rest := FirstGroup(sub, tokens);
    next := Apply(st, g);
    GroupIsReadTwice(sub, st, g, rest, more);
  }

  lemma GroupIsReadTwice(sub: Sub, st: Scanned, g: Group, rest: seq<string>, more: seq<string>)
    requires GroupFits(sub, g)
    ensures Scan(sub, st, Spell(g) + rest) == Scan(sub, Apply(st, g), rest)
    ensures Scan(sub, st, Spell(g) + rest + more) == Scan(sub, Apply(st, g), rest + more)
  {
    GroupIsRead(sub, st, g, rest);
    GroupIsRead(sub, st, g, rest + more);
    Regrouped(Spell(g), rest, more);
  }

  lemma Regrouped(a: seq<string>, b: seq<string>, c: seq<string>)
    ensures a + b + c == a + (b + c)
  {
  }

  lemma UnknownHeadStays(sub: Sub, st: Scanned, tokens: seq<string>, all: seq<string>)
    requires tokens != [] && !HeadReads(sub, tokens) && tokens <= all
    requires Scan(sub, st, tokens).Err? ==> !Scan(sub, st, tokens).error.RequiresValue?
    ensures Scan(sub, st, all) == Scan(sub, st, tokens) == Err(UnknownOption(tokens[0]))
  {
    assert all[0] == tokens[0];
  }

  /** What follows tokens that do not wait is read from the state they leave, and an error of theirs stays. */
  lemma ScanThenMore(sub: Sub, tokens: seq<string>, more: seq<string>)
    requires !Waits(sub, tokens)
    ensures Scan(sub, NOTHING, tokens + more) == ScanOn(sub, Scan(sub, NOTHING, tokens), more)
  {
    MissingValueIff(sub, tokens);
    ReadOnAfter(sub, NOTHING, tokens, more);
  }

  /** A value given after its flag or joined to it means the same, wherever a flag is expected. */
  lemma InlineMeansTheSame(sub: Sub, before: seq<string>, f: Flag, value: string, more: seq<string>)
    requires Valued(sub, f) && !Waits(sub, before)
    ensures ParseSub(sub, before + ([FlagText(f), value] + more)) ==
            ParseSub(sub, before + ([FlagText(f) + "=" + value] + more))
  {
    ScanThenMore(sub, before, Spell(ValueG(f, value)) + more);
    ScanThenMore(sub, before, Spell(InlineG(f, value)) + more);
    if Scan(sub, NOTHING, before).Ok? {
      GroupIsRead(sub, Scan(sub, NOTHING, before).value, ValueG(f, value), more);
      GroupIsRead(sub, Scan(sub, NOTHING, before).value, InlineG(f, value), more);
    }
  }

  ghost predicate SameInline(sub: Sub, before: seq<string>, f: Flag, value: string, more: seq<string>) {
    ParseSub(sub, before + ([FlagText(f), value] + more)) ==
        ParseSub(sub, before + ([FlagText(f) + "=" + value] + more))
  }

  /** The two forms agree for every value and whatever follows if and only if the tokens before do not wait for a
    * value: a waiting flag takes the next token, flag or not, as its own. */
  lemma InlineIff(sub: Sub, before: seq<string>, f: Flag)
    requires Valued(sub, f)
    ensures (forall value, more :: SameInline(sub, before, f, value, more)) <==> !Waits(sub, before)
  {
    if !Waits(sub, before) {
      forall value, more ensures SameInline(sub, before, f, value, more) {
        InlineMeansTheSame(sub, before, f, value, more);
      }
    } else {
      WaitingFlagSwallows(sub, before, f, "");
      assert !SameInline(sub, before, f, "", []);
    }
  }

  /** More arguments by one make another outcome. */
  lemma CountsDiffer(sub: Sub, a: Scanned, b: Scanned)
    requires |a.positional| == |b.positional| + 1
    ensures Build(sub, a) != Build(sub, b)
  {
  }

  /** After tokens that wait, a plain value given after the flag is an argument of its own, a joined one is not. */
  lemma WaitingFlagSwallows(sub: Sub, before: seq<string>, f: Flag, value: string)
    requires Waits(sub, before) && !("--" <= value)
    ensures ParseSub(sub, before + ([FlagText(f), value] + [])) !=
            ParseSub(sub, before + ([FlagText(f) + "=" + value] + []))
  {
    var gs, g :| SpelledWaiting(sub, before, gs, g);
    var st := ApplyAll(NOTHING, gs);
    SwallowedThen(sub, before, gs, g, FlagText(f), [value]);
    SwallowedThen(sub, before, gs, g, FlagText(f) + "=" + value, []);
    ArgumentIsRead(sub, Stored(st, g, FlagText(f)), value, []);
    assert [FlagText(f), value] + [] == [FlagText(f)] + [value] && [value] + [] == [value];
    assert [FlagText(f) + "=" + value] + [] == [FlagText(f) + "=" + value] + ([]);
    var apart := Stored(st, g, FlagText(f));
    CountsDiffer(sub, apart.(positional := apart.positional + [value]), Stored(st, g, FlagText(f) + "=" + value));
  }

  lemma SwallowedThen(sub: Sub, before: seq<string>, gs: seq<Group>, g: Flag, next: string, more: seq<string>)
    requires SpelledWaiting(sub, before, gs, g)
    ensures Scan(sub, NOTHING, before + ([next] + more)) == Scan(sub, Stored(ApplyAll(NOTHING, gs), g, next), more)
  {
    var tokens := [next] + more;
    assert before + tokens == SpellAll(gs) + ([FlagText(g)] + tokens);
    WaitingIsRead(sub, NOTHING, gs, g, tokens);
    assert tokens[1..] == more;
  }

  /** `--json`, or `--dir` with a value in either form. */
  predicate IsExtra(g: Group) {
    g.JsonG? || ((g.ValueG? || g.InlineG?) && g.flag == DirF)
  }

  /** Such groups change nothing, put anywhere after tokens that do not wait. */
  lemma ExtrasChangeNothing(sub: Sub, before: seq<string>, extra: Group, more: seq<string>)
    requires IsExtra(extra) && !Waits(sub, before)
    ensures ParseSub(sub, before + (Spell(extra) + more)) == ParseSub(sub, before + more)
  {
    ScanThenMore(sub, before, Spell(extra) + more);
    ScanThenMore(sub, before, more);
    if Scan(sub, NOTHING, before).Ok? {
      GroupIsRead(sub, Scan(sub, NOTHING, before).value, extra, more);
    }
  }

  lemma TrailingJsonOption(sub: Sub, tokens: seq<string>)
    ensures ParseSub(sub, tokens + [FlagText(JsonF)]) == ParseSub(sub, tokens) <==> !Waits(sub, tokens)
  {
    if Waits(sub, tokens) {
      var gs, f :| SpelledWaiting(sub, tokens, gs, f);
      MissingValueIff(sub, tokens);
      WaitingIsRead(sub, NOTHING, gs, f, [FlagText(JsonF)]);
      assert tokens + [FlagText(JsonF)] == SpellAll(gs) + ([FlagText(f)] + [FlagText(JsonF)]);
    } else {
      ExtrasChangeNothing(sub, tokens, JsonG, []);
      assert Spell(JsonG) + [] == [FlagText(JsonF)] && tokens + [] == tokens;
    }
  }

  /** A trailing `--json` leaves the outcome of the whole arguments as it is if and only if there is a verb for it to
    * follow and they do not end in a value-taking flag without its value. */
  lemma TrailingJsonIff(args: seq<string>)
    ensures Parse(args + [FlagText(JsonF)]) == Parse(args) <==>
            |args| != 1 && !(|args| >= 2 && SubOf(args[1]).Some? && Waits(SubOf(args[1]).value, args[2..]))
  {
    var more := args + [FlagText(JsonF)];
    if |args| == 1 {
      assert more[1] == FlagText(JsonF);
      assert SubOf(FlagText(JsonF)).None? by { assert FlagText(JsonF)[0] == '-'; }
    } else if |args| >= 2 {
      assert more[1] == args[1] && more[2..] == args[2..] + [FlagText(JsonF)];
      if SubOf(args[1]).Some? { TrailingJsonOption(SubOf(args[1]).value, args[2..]); }
    }
  }
}
