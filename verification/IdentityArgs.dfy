/** The arguments of `fgos identity` (apps/fgos/src/cli_projector.rs) as requests of the identity
  * provider (packages/identity/rust/src/provider.rs). */
module IdentityArgs {
  import opened Wrappers
  import Text
  import Decimal

  datatype SessionAction = ReadSession | Register(role: Option<string>, take: bool) | DropRole(dropped: string)

  datatype ProjectAction = ReadProject | Init(handle: Option<string>) | New(handle: Option<string>)

  datatype PinsAction = ListPins | Forget(machineId: string) | Confirm(machineId: string, fingerprint: string)

  datatype Verb =
    | Writer
    | Machine(alias: Option<string>)
    | Session(session: SessionAction)
    | Resolve(query: string)
    | List(project: bool, prune: bool, machine: Option<string>)
    | Project(action: ProjectAction)
    | Mint(kind: string, release: Option<nat>)
    | Pins(pins: PinsAction)

  datatype Request = Request(pid: Option<nat>, fgosDir: Option<string>, verb: Verb)

  datatype Flag =
    | JsonF | PidF | FgosDirF | DirF | RegisterF | RoleF | DropRoleF | TakeF | ProjectF | PruneF | MachineF
    | InitF | NewF | HandleF | ReleaseF | ForgetF | ConfirmF | FingerprintF | AliasF

  datatype Sub = WriterS | MachineS | SessionS | ResolveS | ListS | ProjectS | MintS | PinsS

  datatype Error =
    | UnknownSubcommand(name: string) | KindMissing | QueryMissing | UnknownOption(token: string)
    | RequiresValue(flag: Flag) | BadNumber(flag: Flag, text: string) | EmptyValue(flag: Flag) | MintTwice
    | TakeNeedsRole | DropRoleAlone | ForgetXorConfirm | FingerprintGoesWithConfirm | FingerprintNeedsConfirm
    | ConfirmNeedsFingerprint | HandleNeedsMint

  const U32_LIMIT: nat := 0x1_0000_0000
  const U64_LIMIT: nat := 0x1_0000_0000_0000_0000

  // ---------- names ----------

  function FlagText(f: Flag): string {
    match f
    case JsonF => "--json" case PidF => "--pid" case FgosDirF => "--fgos-dir" case DirF => "--dir"
    case RegisterF => "--register" case RoleF => "--role" case DropRoleF => "--drop-role" case TakeF => "--take"
    case ProjectF => "--project" case PruneF => "--prune" case MachineF => "--machine" case InitF => "--init"
    case NewF => "--new" case HandleF => "--handle" case ReleaseF => "--release" case ForgetF => "--forget"
    case ConfirmF => "--confirm" case FingerprintF => "--fingerprint" case AliasF => "--alias"
  }

  function FlagOf(s: string): Option<Flag> {
    if |s| == 5 then
      if s == "--pid" then Some(PidF) else if s == "--dir" then Some(DirF)
      else if s == "--new" then Some(NewF) else None
    else if |s| == 6 then
      if s == "--json" then Some(JsonF) else if s == "--role" then Some(RoleF)
      else if s == "--take" then Some(TakeF) else if s == "--init" then Some(InitF) else None
    else if |s| == 9 then
      if s == "--project" then Some(ProjectF) else if s == "--machine" then Some(MachineF)
      else if s == "--release" then Some(ReleaseF) else if s == "--confirm" then Some(ConfirmF) else None
    else if s == "--prune" then Some(PruneF) else if s == "--alias" then Some(AliasF)
    else if s == "--handle" then Some(HandleF) else if s == "--forget" then Some(ForgetF)
    else if s == "--fgos-dir" then Some(FgosDirF) else if s == "--register" then Some(RegisterF)
    else if s == "--drop-role" then Some(DropRoleF) else if s == "--fingerprint" then Some(FingerprintF) else None
  }

  function SubText(s: Sub): string {
    match s
    case WriterS => "writer" case MachineS => "machine" case SessionS => "session" case ResolveS => "resolve"
    case ListS => "list" case ProjectS => "project" case MintS => "mint" case PinsS => "pins"
  }

  function SubOf(s: string): Option<Sub> {
    if s == "writer" then Some(WriterS) else if s == "machine" then Some(MachineS)
    else if s == "session" then Some(SessionS) else if s == "resolve" then Some(ResolveS)
    else if s == "list" then Some(ListS) else if s == "project" then Some(ProjectS)
    else if s == "mint" then Some(MintS) else if s == "pins" then Some(PinsS) else None
  }

  lemma FlagOfText(f: Flag)
    ensures FlagOf(FlagText(f)) == Some(f) && '=' !in FlagText(f)
  {
    var s := FlagText(f);
    assert |s| == 5 ==> s[2] == 'p' || s[2] == 'd' || s[2] == 'n';
    assert |s| == 6 ==> s[2] == 'j' || s[2] == 'r' || s[2] == 't' || s[2] == 'i';
    assert |s| == 9 ==> s[2] == 'p' || s[2] == 'm' || s[2] == 'r' || s[2] == 'c';
  }

  lemma SubOfText(s: Sub)
    ensures SubOf(SubText(s)) == Some(s) && SubText(s)[0] != '-'
  {
  }

  /** No other word is a verb. */
  lemma SubTextOf(s: string)
    ensures SubOf(s).Some? ==> SubText(SubOf(s).value) == s
  {
  }

  // ---------- reading the options ----------

  /** An option token; a token that is none has no known flag. */
  datatype Lexeme = Opt(flag: Option<Flag>, inline: Option<string>)

  function Lex(token: string): Lexeme {
    match Text.SplitOnce(token, '=')
    case Whole => Opt(FlagOf(token), None)
    case At(head, tail) => Opt(FlagOf(head), Some(tail))
  }

  predicate Allowed(sub: Sub, f: Flag) {
    match f
    case JsonF => false
    case DirF => true
    case PidF => sub.WriterS? || sub.SessionS?
    case FgosDirF => sub.WriterS? || sub.SessionS?
    case AliasF => sub.MachineS?
    case ReleaseF => sub.MintS?
    case RegisterF => sub.SessionS?
    case RoleF => sub.SessionS?
    case DropRoleF => sub.SessionS?
    case TakeF => sub.SessionS?
    case ProjectF => sub.ListS?
    case PruneF => sub.ListS?
    case MachineF => sub.ListS?
    case InitF => sub.ProjectS?
    case NewF => sub.ProjectS?
    case HandleF => sub.ProjectS?
    case ForgetF => sub.PinsS?
    case ConfirmF => sub.PinsS?
    case FingerprintF => sub.PinsS?
  }

  /** The flags that take no value when they stand alone. */
  predicate IsSwitch(f: Flag) {
    f == InitF || f == NewF || f == RegisterF || f == TakeF || f == ProjectF || f == PruneF
  }

  /** `mint` is `Some(fork)` once `--init` (false) or `--new` (true) was given. */
  datatype Scanned = Scanned(numbers: map<Flag, nat>, texts: map<Flag, string>, on: set<Flag>, mint: Option<bool>)

  const NOTHING := Scanned(map[], map[], {}, None)

  function Limit(f: Flag): nat { if f == PidF then U32_LIMIT else U64_LIMIT }

  /** Where a text value goes: a switch given with a value is taken for the directory. */
  function Target(f: Flag): Flag { if IsSwitch(f) then FgosDirF else f }

  function Assign(st: Scanned, f: Flag, value: string): Result<Scanned, Error> {
    if f == DirF then Ok(st)
    else if f == PidF || f == ReleaseF then
      var n := Decimal.Parse(value, Limit(f));
      if n.Some? && n.value > 0 then Ok(st.(numbers := st.numbers[f := n.value])) else Err(BadNumber(f, value))
    else if value == "" then Err(EmptyValue(Target(f)))
    else Ok(st.(texts := st.texts[Target(f) := value]))
  }

  function TurnOn(st: Scanned, f: Flag): Result<Scanned, Error> {
    if f == InitF || f == NewF then
      if st.mint.Some? then Err(MintTwice) else Ok(st.(mint := Some(f == NewF)))
    else Ok(st.(on := st.on + {f}))
  }

  /** What the tokens from here on are: one option with what it does, or an error. */
  datatype Reading = Skip | Done(after: Result<Scanned, Error>, used: nat)

  /** Reads the first option: the state after it and how many tokens it used. */
  function ReadOption(sub: Sub, st: Scanned, tokens: seq<string>): (r: Reading)
    requires tokens != []
    ensures r.Done? && r.after.Ok? ==> 1 <= r.used <= |tokens|
  {
    var option := Lex(tokens[0]);
    if option == Opt(Some(JsonF), None) then Skip
    else if option.flag.None? || !Allowed(sub, option.flag.value) then Done(Err(UnknownOption(tokens[0])), 0)
    else if option.inline.Some? then Done(Assign(st, option.flag.value, option.inline.value), 1)
    else if IsSwitch(option.flag.value) then Done(TurnOn(st, option.flag.value), 1)
    else if |tokens| == 1 then Done(Err(RequiresValue(option.flag.value)), 0)
    else Done(Assign(st, option.flag.value, tokens[1]), 2)
  }

  function Scan(sub: Sub, st: Scanned, tokens: seq<string>): Result<Scanned, Error>
    decreases |tokens|
  {
    if tokens == [] then Ok(st)
    else
      match ReadOption(sub, st, tokens)
      case Skip => Scan(sub, st, tokens[1..])
      case Done(Err(e), _) => Err(e)
      case Done(Ok(after), used) => Scan(sub, after, tokens[used..])
  }

  function TextOf(st: Scanned, f: Flag): Option<string> {
    if f in st.texts then Some(st.texts[f]) else None
  }

  function Number(st: Scanned, f: Flag): Option<nat> {
    if f in st.numbers then Some(st.numbers[f]) else None
  }

  function BuildSession(st: Scanned): Result<Verb, Error> {
    var role, dropped := TextOf(st, RoleF), TextOf(st, DropRoleF);
    if TakeF in st.on && role.None? then Err(TakeNeedsRole)
    else if dropped.Some? then
      if RegisterF in st.on || role.Some? then Err(DropRoleAlone) else Ok(Session(DropRole(dropped.value)))
    else if RegisterF in st.on || role.Some? then Ok(Session(Register(role, TakeF in st.on)))
    else Ok(Session(ReadSession))
  }

  function BuildPins(forget: Option<string>, confirm: Option<string>, fingerprint: Option<string>)
      : Result<Verb, Error>
  {
    if forget.Some? then
      if confirm.Some? then Err(ForgetXorConfirm)
      else if fingerprint.Some? then Err(FingerprintGoesWithConfirm)
      else Ok(Pins(Forget(forget.value)))
    else if confirm.None? then
      if fingerprint.Some? then Err(FingerprintNeedsConfirm) else Ok(Pins(ListPins))
    else if fingerprint.None? then Err(ConfirmNeedsFingerprint)
    else Ok(Pins(Confirm(confirm.value, fingerprint.value)))
  }

  function BuildProject(mint: Option<bool>, handle: Option<string>): Result<Verb, Error> {
    if mint.None? then
      if handle.Some? then Err(HandleNeedsMint) else Ok(Project(ReadProject))
    else if mint.value then Ok(Project(New(handle)))
    else Ok(Project(Init(handle)))
  }

  function BuildVerb(sub: Sub, argument: string, st: Scanned): Result<Verb, Error> {
    match sub
    case WriterS => Ok(Writer)
    case MachineS => Ok(Machine(TextOf(st, AliasF)))
    case SessionS => BuildSession(st)
    case ResolveS => Ok(Resolve(argument))
    case ListS => Ok(List(ProjectF in st.on, PruneF in st.on, TextOf(st, MachineF)))
    case ProjectS => BuildProject(st.mint, TextOf(st, HandleF))
    case MintS => Ok(Mint(argument, Number(st, ReleaseF)))
    case PinsS => BuildPins(TextOf(st, ForgetF), TextOf(st, ConfirmF), TextOf(st, FingerprintF))
  }

  function ParseOptions(sub: Sub, argument: string, tokens: seq<string>): Result<Request, Error> {
    match Scan(sub, NOTHING, tokens)
    case Err(e) => Err(e)
    case Ok(st) =>
      match BuildVerb(sub, argument, st)
      case Err(e) => Err(e)
      case Ok(verb) => Ok(Request(Number(st, PidF), TextOf(st, FgosDirF), verb))
  }

  predicate Dashed(s: string) { s != "" && s[0] == '-' }

  predicate TakesArgument(sub: Sub) { sub.MintS? || sub.ResolveS? }

  /** The verb, its argument and the option tokens. */
  datatype Headed = Headed(sub: Sub, argument: string, tokens: seq<string>)

  function Head(args: seq<string>): Result<Headed, Error> {
    if |args| < 2 || Dashed(args[1]) then Ok(Headed(WriterS, "", if |args| < 1 then [] else args[1..]))
    else if SubOf(args[1]).None? then Err(UnknownSubcommand(args[1]))
    else
      var sub := SubOf(args[1]).value;
      if !TakesArgument(sub) then Ok(Headed(sub, "", args[2..]))
      else if |args| < 3 || Dashed(args[2]) then Err(if sub.MintS? then KindMissing else QueryMissing)
      else Ok(Headed(sub, args[2], args[3..]))
  }

  function Parse(args: seq<string>): Result<Request, Error> {
    match Head(args)
    case Err(e) => Err(e)
    case Ok(h) => ParseOptions(h.sub, h.argument, h.tokens)
  }

  method ScanTokens(sub: Sub, tokens: seq<string>) returns (r: Result<Scanned, Error>)
    ensures r == Scan(sub, NOTHING, tokens)
  {
    var st := NOTHING;
    var i := 0;
    assert tokens[0..] == tokens;
    while i < |tokens|
      invariant 0 <= i <= |tokens|
      invariant Scan(sub, NOTHING, tokens) == Scan(sub, st, tokens[i..])
    {
      var value := tokens[i];
      ghost var start := i;
      assert tokens[i..][0] == value && tokens[i..][1..] == tokens[i + 1..];
      i := i + 1;
      var option := Lex(value);
      if option == Opt(Some(JsonF), None) { continue; }
      if option.flag.None? || !Allowed(sub, option.flag.value) { return Err(UnknownOption(value)); }
      var flag := option.flag.value;
      var step: Result<Scanned, Error>;
      if option.inline.Some? {
        step := Assign(st, flag, option.inline.value);
      } else if IsSwitch(flag) {
        step := TurnOn(st, flag);
      } else if i < |tokens| {
        step := Assign(st, flag, tokens[i]);
        assert tokens[start..][2..] == tokens[i + 1..] && tokens[start..][1] == tokens[i];
        i := i + 1;
      } else {
        return Err(RequiresValue(flag));
      }
      if step.Err? { return step; }
      st := step.value;
    }
    r := Ok(st);
  }

  method ProjectIdentityRequest(args: seq<string>) returns (r: Result<Request, Error>)
    ensures r == Parse(args)
  {
    var sub, argument, index := WriterS, "", 1;
    if |args| >= 2 && !Dashed(args[1]) {
      var named := SubOf(args[1]);
      if named.None? { return Err(UnknownSubcommand(args[1])); }
      sub, index := named.value, 2;
      if TakesArgument(sub) {
        if |args| < 3 || Dashed(args[2]) { return Err(if sub.MintS? then KindMissing else QueryMissing); }
        argument, index := args[2], 3;
      }
    }
    var tokens := if |args| < index then [] else args[index..];
    var scanned := ScanTokens(sub, tokens);
    if scanned.Err? { return Err(scanned.error); }
    var verb := BuildVerb(sub, argument, scanned.value);
    r := match verb case Err(e) => Err(e)
        case Ok(v) => Ok(Request(Number(scanned.value, PidF), TextOf(scanned.value, FgosDirF), v));
  }

  // ---------- only consistent requests ----------

  function SubFor(v: Verb): Sub {
    match v
    case Writer => WriterS case Machine(_) => MachineS case Session(_) => SessionS case Resolve(_) => ResolveS
    case List(_, _, _) => ListS case Project(_) => ProjectS case Mint(_, _) => MintS case Pins(_) => PinsS
  }

  /** The verbs whose arguments can name a directory: by its flag, or by a switch given with a value. */
  predicate NamesDir(sub: Sub) { sub.WriterS? || sub.SessionS? || sub.ListS? || sub.ProjectS? }

  predicate Filled(text: Option<string>) { text.Some? ==> text.value != "" }

  predicate InRange(n: Option<nat>, limit: nat) { n.Some? ==> 0 < n.value < limit }

  predicate ConsistentVerb(v: Verb) {
    match v
    case Writer => true
    case Machine(alias) => Filled(alias)
    case Session(ReadSession) => true
    case Session(Register(role, take)) => Filled(role) && (take ==> role.Some?)
    case Session(DropRole(dropped)) => dropped != ""
    case Resolve(query) => !Dashed(query)
    case List(_, _, machine) => Filled(machine)
    case Project(ReadProject) => true
    case Project(Init(handle)) => Filled(handle)
    case Project(New(handle)) => Filled(handle)
    case Mint(kind, release) => !Dashed(kind) && InRange(release, U64_LIMIT)
    case Pins(ListPins) => true
    case Pins(Forget(id)) => id != ""
    case Pins(Confirm(id, fingerprint)) => id != "" && fingerprint != ""
  }

  predicate Consistent(r: Request) {
    && ConsistentVerb(r.verb)
    && InRange(r.pid, U32_LIMIT) && (r.pid.Some? ==> r.verb.Writer? || r.verb.Session?)
    && Filled(r.fgosDir)
    && (r.fgosDir.Some? ==> r.verb.Writer? || r.verb.Session? || r.verb.List? || r.verb.Project?)
  }

  predicate SaneNumber(sub: Sub, f: Flag, n: nat) {
    (f == PidF || f == ReleaseF) && Allowed(sub, f) && 0 < n < Limit(f)
  }

  predicate SaneText(sub: Sub, f: Flag, text: string) { text != "" && (f == FgosDirF ==> NamesDir(sub)) }

  ghost predicate Sane(sub: Sub, st: Scanned) {
    && (forall f :: f in st.numbers ==> SaneNumber(sub, f, st.numbers[f]))
    && (forall f :: f in st.texts ==> SaneText(sub, f, st.texts[f]))
  }

  lemma AssignKeepsSane(sub: Sub, st: Scanned, f: Flag, value: string)
    requires Sane(sub, st) && Allowed(sub, f)
    ensures Assign(st, f, value).Ok? ==> Sane(sub, Assign(st, f, value).value)
  {
  }

  lemma {:induction false} ScanIsSane(sub: Sub, st: Scanned, tokens: seq<string>)
    requires Sane(sub, st)
    ensures Scan(sub, st, tokens).Ok? ==> Sane(sub, Scan(sub, st, tokens).value)
    decreases |tokens|
  {
    if tokens != [] {
      var option := Lex(tokens[0]);
      var reading := ReadOption(sub, st, tokens);
      if reading.Skip? {
        ScanIsSane(sub, st, tokens[1..]);
      } else if reading.after.Ok? {
        if option.inline.Some? { AssignKeepsSane(sub, st, option.flag.value, option.inline.value); }
        else if !IsSwitch(option.flag.value) { AssignKeepsSane(sub, st, option.flag.value, tokens[1]); }
        ScanIsSane(sub, reading.after.value, tokens[reading.used..]);
      }
    }
  }

  lemma SaneTextIsFilled(sub: Sub, st: Scanned, f: Flag)
    requires Sane(sub, st)
    ensures Filled(TextOf(st, f)) && (TextOf(st, FgosDirF).Some? ==> NamesDir(sub))
    ensures InRange(Number(st, f), Limit(f)) && (Number(st, f).Some? ==> Allowed(sub, f))
  {
  }

  lemma BuildIsConsistent(sub: Sub, argument: string, st: Scanned)
    requires Sane(sub, st) && !Dashed(argument) && BuildVerb(sub, argument, st).Ok?
    ensures var v := BuildVerb(sub, argument, st).value; SubFor(v) == sub && ConsistentVerb(v)
  {
  }

  lemma OptionsGiveConsistent(sub: Sub, argument: string, tokens: seq<string>)
    requires !Dashed(argument) && ParseOptions(sub, argument, tokens).Ok?
    ensures Consistent(ParseOptions(sub, argument, tokens).value)
  {
    ScanIsSane(sub, NOTHING, tokens);
    var st := Scan(sub, NOTHING, tokens).value;
    BuildIsConsistent(sub, argument, st);
    SaneTextIsFilled(sub, st, FgosDirF);
    SaneTextIsFilled(sub, st, PidF);
  }

  /** Whatever the arguments, an accepted request is consistent. */
  lemma AcceptsOnlyConsistent(args: seq<string>)
    requires Parse(args).Ok?
    ensures Consistent(Parse(args).value)
  {
    if |args| < 2 || Dashed(args[1]) {
      OptionsGiveConsistent(WriterS, "", if |args| < 1 then [] else args[1..]);
    } else {
      var sub := SubOf(args[1]).value;
      if TakesArgument(sub) {
        OptionsGiveConsistent(sub, args[2], args[3..]);
      } else {
        OptionsGiveConsistent(sub, "", args[2..]);
      }
    }
  }

  // ---------- canonical arguments ----------

  datatype Group = ValueG(flag: Flag, text: string) | InlineG(flag: Flag, text: string) | SwitchG(flag: Flag) | JsonG

  function Spell(g: Group): seq<string> {
    match g
    case ValueG(f, text) => [FlagText(f), text]
    case InlineG(f, text) => [FlagText(f) + "=" + text]
    case SwitchG(f) => [FlagText(f)]
    case JsonG => [FlagText(JsonF)]
  }

  function Apply(st: Scanned, g: Group): Result<Scanned, Error> {
    match g
    case ValueG(f, text) => Assign(st, f, text)
    case InlineG(f, text) => Assign(st, f, text)
    case SwitchG(f) => TurnOn(st, f)
    case JsonG => Ok(st)
  }

  predicate GroupFits(sub: Sub, g: Group) {
    match g
    case ValueG(f, _) => Allowed(sub, f) && !IsSwitch(f)
    case InlineG(f, _) => Allowed(sub, f)
    case SwitchG(f) => Allowed(sub, f) && IsSwitch(f)
    case JsonG => true
  }

  lemma LexOfFlag(f: Flag, text: string)
    ensures Lex(FlagText(f)) == Opt(Some(f), None)
    ensures Lex(FlagText(f) + "=" + text) == Opt(Some(f), Some(text))
  {
    FlagOfText(f);
    Text.SplitOnceOfPlain(FlagText(f), '=');
    Text.SplitOnceAtSeparator(FlagText(f), text, '=');
    assert FlagText(f) + "=" + text == FlagText(f) + ['='] + text;
  }

  function ScanOn(sub: Sub, step: Result<Scanned, Error>, rest: seq<string>): Result<Scanned, Error> {
    match step case Err(e) => Err(e) case Ok(st) => Scan(sub, st, rest)
  }

  lemma OptionIsRead(sub: Sub, st: Scanned, g: Group, tokens: seq<string>)
    requires GroupFits(sub, g) && tokens != [] && tokens[0] == Spell(g)[0]
    requires g.ValueG? ==> |tokens| > 1 && tokens[1] == g.text
    ensures ReadOption(sub, st, tokens) == if g.JsonG? then Skip else Done(Apply(st, g), |Spell(g)|)
  {
    LexOfFlag(if g.JsonG? then JsonF else g.flag, if g.InlineG? then g.text else "");
  }

  /** A group is read as what it says, whatever follows it. */
  lemma GroupIsRead(sub: Sub, st: Scanned, g: Group, rest: seq<string>)
    requires GroupFits(sub, g)
    ensures Scan(sub, st, Spell(g) + rest) == ScanOn(sub, Apply(st, g), rest)
  {
    var tokens := Spell(g) + rest;
    OptionIsRead(sub, st, g, tokens);
    assert tokens[|Spell(g)|..] == rest;
  }

  function SpellAll(gs: seq<Group>): seq<string> {
    if gs == [] then [] else Spell(gs[0]) + SpellAll(gs[1..])
  }

  function ApplyAll(st: Scanned, gs: seq<Group>): Result<Scanned, Error>
    decreases |gs|
  {
    if gs == [] then Ok(st)
    else match Apply(st, gs[0]) case Err(e) => Err(e) case Ok(after) => ApplyAll(after, gs[1..])
  }

  predicate AllFit(sub: Sub, gs: seq<Group>) {
    gs == [] || (GroupFits(sub, gs[0]) && AllFit(sub, gs[1..]))
  }

  lemma {:induction false} GroupsAreRead(sub: Sub, st: Scanned, gs: seq<Group>)
    requires AllFit(sub, gs)
    ensures Scan(sub, st, SpellAll(gs)) == ApplyAll(st, gs)
    decreases |gs|
  {
    if gs != [] {
      GroupIsRead(sub, st, gs[0], SpellAll(gs[1..]));
      if Apply(st, gs[0]).Ok? { GroupsAreRead(sub, Apply(st, gs[0]).value, gs[1..]); }
    }
  }

  lemma FlagTextOf(s: string)
    ensures FlagOf(s).Some? ==> FlagText(FlagOf(s).value) == s
  {
  }

  function Spelled(f: Flag, inline: Option<string>): string {
    if inline.None? then FlagText(f) else FlagText(f) + "=" + inline.value
  }

  lemma LexInverse(token: string)
    ensures var option := Lex(token);
      option.flag.Some? ==> token == Spelled(option.flag.value, option.inline)
  {
    Text.JoinAfterSplitOnce(token, '=');
    FlagTextOf(token);
    var cut := Text.SplitOnce(token, '=');
    if cut.At? {
      FlagTextOf(cut.head);
      assert token == cut.head + "=" + cut.tail;
    }
  }

  /** The first option of these tokens is an error. */
  predicate Stuck(sub: Sub, st: Scanned, tokens: seq<string>) {
    tokens != [] && ReadOption(sub, st, tokens).Done? && ReadOption(sub, st, tokens).after.Err?
  }

  /** The group at the head of tokens that are read without an error. */
  lemma FirstGroup(sub: Sub, st: Scanned, tokens: seq<string>) returns (g: Group, rest: seq<string>)
    requires tokens != [] && !Stuck(sub, st, tokens)
    ensures GroupFits(sub, g) && Apply(st, g).Ok? && tokens == Spell(g) + rest
  {
    LexInverse(tokens[0]);
    var option, next := Lex(tokens[0]), if |tokens| > 1 then tokens[1] else "";
    g := HeadGroup(option, next);
    HeadGroupFits(sub, st, tokens, option, next);
    HeadGroupSpells(option, next);
    rest := tokens[|Spell(g)|..];
    assert tokens == tokens[..|Spell(g)|] + rest;
    assert tokens[..1] == [tokens[0]] && (|tokens| > 1 ==> tokens[..2] == [tokens[0], tokens[1]]);
  }

  lemma HeadGroupFits(sub: Sub, st: Scanned, tokens: seq<string>, option: Lexeme, next: string)
    requires tokens != [] && !Stuck(sub, st, tokens) && option == Lex(tokens[0])
    requires next == if |tokens| > 1 then tokens[1] else ""
    ensures option.flag.Some? && GroupFits(sub, HeadGroup(option, next)) && Apply(st, HeadGroup(option, next)).Ok?
    ensures HeadGroup(option, next).ValueG? ==> |tokens| > 1
  {
  }

  lemma HeadGroupSpells(option: Lexeme, next: string)
    requires option.flag.Some?
    ensures var g := HeadGroup(option, next);
      Spell(g) == if g.ValueG? then [Spelled(option.flag.value, option.inline), next]
          else [Spelled(option.flag.value, option.inline)]
  {
  }

  function HeadGroup(option: Lexeme, next: string): Group
    requires option.flag.Some?
  {
    var f := option.flag.value;
    if option == Opt(Some(JsonF), None) then JsonG
    else if option.inline.Some? then InlineG(f, option.inline.value)
    else if IsSwitch(f) then SwitchG(f)
    else ValueG(f, next)
  }

  /** All tokens are groups up to the first error. */
  lemma {:induction false} GroupsUpToError(sub: Sub, st: Scanned, tokens: seq<string>)
      returns (gs: seq<Group>, rest: seq<string>)
    ensures AllFit(sub, gs) && ApplyAll(st, gs).Ok? && tokens == SpellAll(gs) + rest
    ensures rest != [] ==> Stuck(sub, ApplyAll(st, gs).value, rest)
    decreases |tokens|
  {
    gs, rest := [], tokens;
    if tokens != [] && !Stuck(sub, st, tokens) {
      var g, tail := FirstGroup(sub, st, tokens);
      var more: seq<Group>;
      more, rest := GroupsUpToError(sub, Apply(st, g).value, tail);
      gs := [g] + more;
      Consed(g, more, tail, rest);
      assert gs[1..] == more;
    }
  }

  lemma Consed(g: Group, more: seq<Group>, tail: seq<string>, rest: seq<string>)
    requires tail == SpellAll(more) + rest
    ensures Spell(g) + tail == SpellAll([g] + more) + rest
  {
    assert ([g] + more)[1..] == more;
  }

  lemma {:induction false} GroupsThenMore(sub: Sub, st: Scanned, gs: seq<Group>, more: seq<string>)
    requires AllFit(sub, gs)
    ensures Scan(sub, st, SpellAll(gs) + more) == ScanOn(sub, ApplyAll(st, gs), more)
    decreases |gs|
  {
    if gs == [] {
      assert SpellAll(gs) + more == more;
    } else {
      assert SpellAll(gs) + more == Spell(gs[0]) + (SpellAll(gs[1..]) + more);
      GroupIsRead(sub, st, gs[0], SpellAll(gs[1..]) + more);
      if Apply(st, gs[0]).Ok? { GroupsThenMore(sub, Apply(st, gs[0]).value, gs[1..], more); }
    }
  }

  /** Tokens that are read without an error are a list of groups. */
  lemma TokensAreGroups(sub: Sub, st: Scanned, tokens: seq<string>) returns (gs: seq<Group>)
    requires Scan(sub, st, tokens).Ok?
    ensures AllFit(sub, gs) && tokens == SpellAll(gs) && Scan(sub, st, tokens) == ApplyAll(st, gs)
  {
    var rest;
    gs, rest := GroupsUpToError(sub, st, tokens);
    GroupsThenMore(sub, st, gs, rest);
    if rest == [] { assert SpellAll(gs) + rest == SpellAll(gs); }
  }

  ghost predicate SpelledBy(sub: Sub, tokens: seq<string>, gs: seq<Group>, st: Scanned) {
    AllFit(sub, gs) && tokens == SpellAll(gs) && ApplyAll(NOTHING, gs) == Ok(st)
  }

  /** The options that are read are exactly the lists of fitting groups whose values are accepted. */
  lemma OptionsIff(sub: Sub, tokens: seq<string>, st: Scanned)
    ensures Scan(sub, NOTHING, tokens) == Ok(st) <==> exists gs :: SpelledBy(sub, tokens, gs, st)
  {
    if Scan(sub, NOTHING, tokens) == Ok(st) {
      var gs := TokensAreGroups(sub, NOTHING, tokens);
      assert SpelledBy(sub, tokens, gs, st);
    }
    if gs :| SpelledBy(sub, tokens, gs, st) {
      GroupsAreRead(sub, NOTHING, gs);
    }
  }

  /** The request that a verb, its argument and what the groups leave make together. */
  ghost predicate Makes(h: Headed, gs: seq<Group>, r: Request) {
    && AllFit(h.sub, gs) && h.tokens == SpellAll(gs) && ApplyAll(NOTHING, gs).Ok?
    && var st := ApplyAll(NOTHING, gs).value;
      && BuildVerb(h.sub, h.argument, st) == Ok(r.verb)
      && r.pid == Number(st, PidF) && r.fgosDir == TextOf(st, FgosDirF)
  }

  /** Arguments are accepted as a request exactly when they have a verb, with its argument if it needs one, and
    * then spell groups that make the request. */
  lemma AcceptedIff(args: seq<string>, r: Request)
    ensures Parse(args) == Ok(r) <==> Head(args).Ok? && exists gs :: Makes(Head(args).value, gs, r)
  {
    if Head(args).Ok? {
      var h := Head(args).value;
      if Parse(args) == Ok(r) {
        var gs := TokensAreGroups(h.sub, NOTHING, h.tokens);
        assert Makes(h, gs, r);
      }
      if gs :| Makes(h, gs, r) {
        GroupsAreRead(h.sub, NOTHING, gs);
      }
    }
  }

  function TextIf(f: Flag, text: Option<string>): seq<Group> { if text.None? then [] else [ValueG(f, text.value)] }

  function NumberIf(f: Flag, n: Option<nat>): seq<Group> {
    if n.None? then [] else [ValueG(f, Decimal.Render(n.value))]
  }

  function SwitchIf(given: bool, f: Flag): seq<Group> { if given then [SwitchG(f)] else [] }

  /** Where no flag names the directory, a switch with a value does. */
  function DirIf(sub: Sub, dir: Option<string>): seq<Group> {
    if dir.None? then []
    else match sub
      case ListS => [InlineG(PruneF, dir.value)]
      case ProjectS => [InlineG(InitF, dir.value)]
      case _ => [ValueG(FgosDirF, dir.value)]
  }

  function VerbGroups(v: Verb): seq<Group> {
    match v
    case Writer => []
    case Machine(alias) => TextIf(AliasF, alias)
    case Session(ReadSession) => []
    case Session(Register(role, take)) => [SwitchG(RegisterF)] + (SwitchIf(take, TakeF) + TextIf(RoleF, role))
    case Session(DropRole(dropped)) => [ValueG(DropRoleF, dropped)]
    case Resolve(_) => []
    case List(project, prune, machine) =>
        SwitchIf(project, ProjectF) + (SwitchIf(prune, PruneF) + TextIf(MachineF, machine))
    case Project(ReadProject) => []
    case Project(Init(handle)) => [SwitchG(InitF)] + TextIf(HandleF, handle)
    case Project(New(handle)) => [SwitchG(NewF)] + TextIf(HandleF, handle)
    case Mint(_, release) => NumberIf(ReleaseF, release)
    case Pins(ListPins) => []
    case Pins(Forget(id)) => [ValueG(ForgetF, id)]
    case Pins(Confirm(id, fingerprint)) => [ValueG(ConfirmF, id), ValueG(FingerprintF, fingerprint)]
  }

  function Groups(r: Request): seq<Group> {
    NumberIf(PidF, r.pid) + (DirIf(SubFor(r.verb), r.fgosDir) + VerbGroups(r.verb))
  }

  function Argument(v: Verb): string {
    match v case Resolve(query) => query case Mint(kind, _) => kind case _ => ""
  }

  function Render(r: Request): seq<string> {
    ["identity", SubText(SubFor(r.verb))]
    + (if TakesArgument(SubFor(r.verb)) then [Argument(r.verb)] else []) + SpellAll(Groups(r))
  }

  function WithText(st: Scanned, f: Flag, text: Option<string>): Scanned {
    if text.None? then st else st.(texts := st.texts[f := text.value])
  }

  function WithNumber(st: Scanned, f: Flag, n: Option<nat>): Scanned {
    if n.None? then st else st.(numbers := st.numbers[f := n.value])
  }

  function WithSwitch(st: Scanned, given: bool, f: Flag): Scanned {
    if given then st.(on := st.on + {f}) else st
  }

  function ApplyOn(step: Result<Scanned, Error>, rest: seq<Group>): Result<Scanned, Error> {
    match step case Err(e) => Err(e) case Ok(st) => ApplyAll(st, rest)
  }

  lemma ApplyFirst(st: Scanned, g: Group, rest: seq<Group>)
    ensures ApplyAll(st, [g] + rest) == ApplyOn(Apply(st, g), rest)
    ensures forall sub :: AllFit(sub, [g] + rest) <==> GroupFits(sub, g) && AllFit(sub, rest)
  {
  }

  lemma ApplyTextIf(sub: Sub, st: Scanned, f: Flag, text: Option<string>, rest: seq<Group>)
    requires Filled(text) && (text.Some? ==> Allowed(sub, f)) && !IsSwitch(f) && f != DirF && f != PidF && f != ReleaseF
    ensures ApplyAll(st, TextIf(f, text) + rest) == ApplyAll(WithText(st, f, text), rest)
    ensures AllFit(sub, rest) ==> AllFit(sub, TextIf(f, text) + rest)
  {
    if text.Some? { ApplyFirst(st, ValueG(f, text.value), rest); } else { assert [] + rest == rest; }
  }

  lemma ApplyNumberIf(sub: Sub, st: Scanned, f: Flag, n: Option<nat>, rest: seq<Group>)
    requires (f == PidF || f == ReleaseF) && InRange(n, Limit(f)) && (n.Some? ==> Allowed(sub, f))
    ensures ApplyAll(st, NumberIf(f, n) + rest) == ApplyAll(WithNumber(st, f, n), rest)
    ensures AllFit(sub, rest) ==> AllFit(sub, NumberIf(f, n) + rest)
  {
    if n.Some? {
      Decimal.ParseAfterRender(n.value, Limit(f));
      ApplyFirst(st, ValueG(f, Decimal.Render(n.value)), rest);
    } else {
      assert [] + rest == rest;
    }
  }

  lemma ApplySwitchIf(sub: Sub, st: Scanned, given: bool, f: Flag, rest: seq<Group>)
    requires IsSwitch(f) && f != InitF && f != NewF && (given ==> Allowed(sub, f))
    ensures ApplyAll(st, SwitchIf(given, f) + rest) == ApplyAll(WithSwitch(st, given, f), rest)
    ensures AllFit(sub, rest) ==> AllFit(sub, SwitchIf(given, f) + rest)
  {
    if given { ApplyFirst(st, SwitchG(f), rest); } else { assert [] + rest == rest; }
  }

  lemma ApplyDirIf(sub: Sub, st: Scanned, dir: Option<string>, rest: seq<Group>)
    requires Filled(dir) && (dir.Some? ==> NamesDir(sub))
    ensures ApplyAll(st, DirIf(sub, dir) + rest) == ApplyAll(WithText(st, FgosDirF, dir), rest)
    ensures AllFit(sub, rest) ==> AllFit(sub, DirIf(sub, dir) + rest)
  {
    if dir.Some? { ApplyFirst(st, DirIf(sub, dir)[0], rest); assert DirIf(sub, dir) == [DirIf(sub, dir)[0]]; }
    else { assert [] + rest == rest; }
  }

  /** What the verb's own options leave, on top of `st`. */
  function Final(v: Verb, st: Scanned): Scanned {
    match v
    case Machine(alias) => WithText(st, AliasF, alias)
    case Session(Register(role, take)) =>
        WithText(WithSwitch(WithSwitch(st, true, RegisterF), take, TakeF), RoleF, role)
    case Session(DropRole(dropped)) => WithText(st, DropRoleF, Some(dropped))
    case List(project, prune, machine) =>
        WithText(WithSwitch(WithSwitch(st, project, ProjectF), prune, PruneF), MachineF, machine)
    case Project(Init(handle)) => WithText(st.(mint := Some(false)), HandleF, handle)
    case Project(New(handle)) => WithText(st.(mint := Some(true)), HandleF, handle)
    case Mint(_, release) => WithNumber(st, ReleaseF, release)
    case Pins(Forget(id)) => WithText(st, ForgetF, Some(id))
    case Pins(Confirm(id, fingerprint)) => WithText(WithText(st, ConfirmF, Some(id)), FingerprintF, Some(fingerprint))
    case _ => st
  }

  /** Nothing of the verb is set yet. */
  predicate Fresh(st: Scanned) {
    st.on == {} && st.mint.None? && st.texts.Keys <= {FgosDirF} && st.numbers.Keys <= {PidF}
  }

  ghost predicate Applies(v: Verb, st: Scanned) {
    AllFit(SubFor(v), VerbGroups(v)) && ApplyAll(st, VerbGroups(v)) == Ok(Final(v, st))
  }

  lemma SessionApplies(v: Verb, st: Scanned)
    requires v.Session? && ConsistentVerb(v)
    ensures Applies(v, st)
  {
    match v.session
    case ReadSession =>
    case DropRole(dropped) =>
      ApplyFirst(st, ValueG(DropRoleF, dropped), []);
      assert VerbGroups(v) == [ValueG(DropRoleF, dropped)] + [];
    case Register(role, take) =>
      var tail := TextIf(RoleF, role);
      var st1 := WithSwitch(st, true, RegisterF);
      ApplyFirst(st, SwitchG(RegisterF), SwitchIf(take, TakeF) + tail);
      ApplySwitchIf(SessionS, st1, take, TakeF, tail);
      ApplyTextIf(SessionS, WithSwitch(st1, take, TakeF), RoleF, role, []);
      assert tail == tail + [];
  }

  lemma ListApplies(v: Verb, st: Scanned)
    requires v.List? && ConsistentVerb(v)
    ensures Applies(v, st)
  {
    var tail := TextIf(MachineF, v.machine);
    ApplySwitchIf(ListS, st, v.project, ProjectF, SwitchIf(v.prune, PruneF) + tail);
    ApplySwitchIf(ListS, WithSwitch(st, v.project, ProjectF), v.prune, PruneF, tail);
    ApplyTextIf(ListS, WithSwitch(WithSwitch(st, v.project, ProjectF), v.prune, PruneF), MachineF, v.machine, []);
    assert tail == tail + [];
  }

  lemma ProjectApplies(v: Verb, st: Scanned)
    requires v.Project? && ConsistentVerb(v) && st.mint.None?
    ensures Applies(v, st)
  {
    if !v.action.ReadProject? {
      var f := if v.action.New? then NewF else InitF;
      var tail := TextIf(HandleF, v.action.handle);
      ApplyFirst(st, SwitchG(f), tail);
      ApplyTextIf(ProjectS, st.(mint := Some(f == NewF)), HandleF, v.action.handle, []);
      assert tail == tail + [];
    }
  }

  lemma PinsApplies(v: Verb, st: Scanned)
    requires v.Pins? && ConsistentVerb(v)
    ensures Applies(v, st)
  {
    match v.pins
    case ListPins =>
    case Forget(id) =>
      ApplyFirst(st, ValueG(ForgetF, id), []);
      assert VerbGroups(v) == [ValueG(ForgetF, id)] + [];
    case Confirm(id, fingerprint) =>
      var next := st.(texts := st.texts[ConfirmF := id]);
      ApplyFirst(st, ValueG(ConfirmF, id), [ValueG(FingerprintF, fingerprint)]);
      ApplyFirst(next, ValueG(FingerprintF, fingerprint), []);
      assert VerbGroups(v) == [ValueG(ConfirmF, id)] + [ValueG(FingerprintF, fingerprint)];
      assert [ValueG(FingerprintF, fingerprint)] == [ValueG(FingerprintF, fingerprint)] + [];
  }

  lemma VerbApplies(v: Verb, st: Scanned)
    requires ConsistentVerb(v) && st.mint.None?
    ensures Applies(v, st)
  {
    match v
    case Writer =>
    case Resolve(_) =>
    case Machine(alias) =>
      assert VerbGroups(v) == TextIf(AliasF, alias) + [];
      ApplyTextIf(MachineS, st, AliasF, alias, []);
    case Mint(_, release) =>
      assert VerbGroups(v) == NumberIf(ReleaseF, release) + [];
      ApplyNumberIf(MintS, st, ReleaseF, release, []);
    case Session(_) => SessionApplies(v, st);
    case List(_, _, _) => ListApplies(v, st);
    case Project(_) => ProjectApplies(v, st);
    case Pins(_) => PinsApplies(v, st);
  }

  /** A consistent verb is built from what its options leave. */
  lemma FinalBuilds(v: Verb, st: Scanned)
    requires ConsistentVerb(v) && Fresh(st)
    ensures BuildVerb(SubFor(v), Argument(v), Final(v, st)) == Ok(v)
  {
    match v
    case Session(_) => assert Final(v, st).on ==
        if v.session.Register? then {RegisterF} + (if v.session.take then {TakeF} else {}) else {};
    case List(project, prune, _) => assert (ProjectF in Final(v, st).on <==> project) &&
        (PruneF in Final(v, st).on <==> prune);
    case _ =>
  }

  lemma FinalKeepsHead(v: Verb, st: Scanned)
    ensures Number(Final(v, st), PidF) == Number(st, PidF) && TextOf(Final(v, st), FgosDirF) == TextOf(st, FgosDirF)
  {
  }

  lemma GroupsApply(r: Request)
    requires Consistent(r)
    ensures var st := WithText(WithNumber(NOTHING, PidF, r.pid), FgosDirF, r.fgosDir);
      AllFit(SubFor(r.verb), Groups(r)) && ApplyAll(NOTHING, Groups(r)) == Ok(Final(r.verb, st))
  {
    var sub := SubFor(r.verb);
    var st1 := WithNumber(NOTHING, PidF, r.pid);
    ApplyNumberIf(sub, NOTHING, PidF, r.pid, DirIf(sub, r.fgosDir) + VerbGroups(r.verb));
    ApplyDirIf(sub, st1, r.fgosDir, VerbGroups(r.verb));
    VerbApplies(r.verb, WithText(st1, FgosDirF, r.fgosDir));
  }

  lemma ParsedFromGroups(sub: Sub, argument: string, gs: seq<Group>, st: Scanned)
    requires AllFit(sub, gs) && ApplyAll(NOTHING, gs) == Ok(st) && BuildVerb(sub, argument, st).Ok?
    ensures ParseOptions(sub, argument, SpellAll(gs)) ==
            Ok(Request(Number(st, PidF), TextOf(st, FgosDirF), BuildVerb(sub, argument, st).value))
  {
    GroupsAreRead(sub, NOTHING, gs);
  }

  lemma HeadIsRead(pid: Option<nat>, dir: Option<string>)
    ensures var st := WithText(WithNumber(NOTHING, PidF, pid), FgosDirF, dir);
      Number(st, PidF) == pid && TextOf(st, FgosDirF) == dir && Fresh(st)
  {
  }

  lemma OptionsAfterRender(r: Request)
    requires Consistent(r)
    ensures ParseOptions(SubFor(r.verb), Argument(r.verb), SpellAll(Groups(r))) == Ok(r)
  {
    var st := WithText(WithNumber(NOTHING, PidF, r.pid), FgosDirF, r.fgosDir);
    GroupsApply(r);
    HeadIsRead(r.pid, r.fgosDir);
    FinalBuilds(r.verb, st);
    FinalKeepsHead(r.verb, st);
    ParsedFromGroups(SubFor(r.verb), Argument(r.verb), Groups(r), Final(r.verb, st));
  }

  /** Reading the canonical arguments of a request gives the request back, for every verb. */
  lemma ParseAfterRender(r: Request)
    requires Consistent(r)
    ensures Parse(Render(r)) == Ok(r)
  {
    var sub := SubFor(r.verb);
    OptionsAfterRender(r);
    SubOfText(sub);
    var args := Render(r);
    assert args[1] == SubText(sub);
    if TakesArgument(sub) {
      assert args[2] == Argument(r.verb) && args[3..] == SpellAll(Groups(r));
    } else {
      assert args[2..] == SpellAll(Groups(r));
    }
  }

  /** The requests the parser can give are exactly the consistent ones. */
  lemma RequestsIff(r: Request)
    ensures (exists args :: Parse(args) == Ok(r)) <==> Consistent(r)
  {
    if args :| Parse(args) == Ok(r) { AcceptsOnlyConsistent(args); }
    if Consistent(r) { ParseAfterRender(r); }
  }

  // ---------- which flag does what ----------

  /** The request holds what only this flag says. */
  predicate Holds(r: Request, f: Flag) {
    match r.verb
    case Writer => (f == PidF && r.pid.Some?) || (f == FgosDirF && r.fgosDir.Some?)
    case Machine(alias) => f == AliasF && alias.Some?
    case Session(action) =>
      || (f == PidF && r.pid.Some?) || (f == FgosDirF && r.fgosDir.Some?)
      || (action.Register? && (f == RegisterF || (f == RoleF && action.role.Some?) || (f == TakeF && action.take)))
      || (action.DropRole? && f == DropRoleF)
    case Resolve(_) => false
    case List(project, prune, machine) =>
      (f == ProjectF && project) || (f == PruneF && prune) || (f == MachineF && machine.Some?)
    case Project(ReadProject) => false
    case Project(Init(handle)) => f == InitF || (f == HandleF && handle.Some?)
    case Project(New(handle)) => f == NewF || (f == HandleF && handle.Some?)
    case Mint(_, release) => f == ReleaseF && release.Some?
    case Pins(ListPins) => false
    case Pins(Forget(_)) => f == ForgetF
    case Pins(Confirm(_, _)) => f == ConfirmF || f == FingerprintF
  }

  function Example(sub: Sub, f: Flag): Request {
    var text := Some("a");
    match sub
    case WriterS => Request(Some(1), text, Writer)
    case MachineS => Request(None, None, Machine(text))
    case SessionS =>
      Request(Some(1), text, Session(if f == DropRoleF then DropRole("a") else Register(text, true)))
    case ResolveS => Request(None, None, Resolve("a"))
    case ListS => Request(None, text, List(true, true, text))
    case ProjectS => Request(None, text, Project(if f == NewF then New(text) else Init(text)))
    case MintS => Request(None, None, Mint("a", Some(1)))
    case PinsS => Request(None, None, Pins(if f == ForgetF then Forget("a") else Confirm("a", "a")))
  }

  ghost predicate SomeHolds(sub: Sub, f: Flag) {
    exists r: Request :: SubFor(r.verb) == sub && Consistent(r) && Holds(r, f)
  }

  lemma ExampleIsConsistent(sub: Sub, f: Flag)
    ensures SubFor(Example(sub, f).verb) == sub && Consistent(Example(sub, f))
  {
    assert !Dashed("a");
  }

  lemma ExampleHolds(sub: Sub, f: Flag)
    requires Allowed(sub, f) && f != DirF
    ensures Holds(Example(sub, f), f)
  {
  }

  lemma HeldIsAllowed(r: Request, f: Flag)
    requires Holds(r, f)
    ensures Allowed(SubFor(r.verb), f)
  {
  }

  /** A verb takes a flag, besides `--dir`, exactly when some request of it holds what the flag says. */
  lemma AllowedIff(sub: Sub, f: Flag)
    ensures Allowed(sub, f) <==> f == DirF || SomeHolds(sub, f)
  {
    ExampleIsConsistent(sub, f);
    if Allowed(sub, f) && f != DirF { ExampleHolds(sub, f); }
    if r: Request :| SubFor(r.verb) == sub && Consistent(r) && Holds(r, f) { HeldIsAllowed(r, f); }
  }

  /** The option state says what the verb holds, and nothing against it. */
  predicate Says(st: Scanned, v: Verb, argument: string) {
    var role, dropped := TextOf(st, RoleF), TextOf(st, DropRoleF);
    var registers, takes := RegisterF in st.on, TakeF in st.on;
    var forget, confirm, fingerprint := TextOf(st, ForgetF), TextOf(st, ConfirmF), TextOf(st, FingerprintF);
    match v
    case Writer => true
    case Machine(alias) => alias == TextOf(st, AliasF)
    case Session(ReadSession) => !registers && !takes && role.None? && dropped.None?
    case Session(Register(named, take)) =>
      (registers || named.Some?) && named == role && take == takes && (take ==> named.Some?) && dropped.None?
    case Session(DropRole(name)) => dropped == Some(name) && !registers && !takes && role.None?
    case Resolve(query) => query == argument
    case List(project, prune, machine) =>
      project == (ProjectF in st.on) && prune == (PruneF in st.on) && machine == TextOf(st, MachineF)
    case Project(ReadProject) => st.mint.None? && TextOf(st, HandleF).None?
    case Project(Init(handle)) => st.mint == Some(false) && handle == TextOf(st, HandleF)
    case Project(New(handle)) => st.mint == Some(true) && handle == TextOf(st, HandleF)
    case Mint(kind, release) => kind == argument && release == Number(st, ReleaseF)
    case Pins(ListPins) => forget.None? && confirm.None? && fingerprint.None?
    case Pins(Forget(id)) => forget == Some(id) && confirm.None? && fingerprint.None?
    case Pins(Confirm(id, printed)) => forget.None? && confirm == Some(id) && fingerprint == Some(printed)
  }

  /** A verb is built exactly from the states that say it. */
  lemma BuildIff(sub: Sub, argument: string, st: Scanned, v: Verb)
    ensures BuildVerb(sub, argument, st) == Ok(v) <==> sub == SubFor(v) && Says(st, v, argument)
  {
  }

  /** What the error of a state from which no verb is built says. */
  lemma BuildErrorSays(sub: Sub, argument: string, st: Scanned, e: Error)
    requires BuildVerb(sub, argument, st) == Err(e)
    ensures var role, dropped, handle := TextOf(st, RoleF), TextOf(st, DropRoleF), TextOf(st, HandleF);
      var forget, confirm, fingerprint := TextOf(st, ForgetF), TextOf(st, ConfirmF), TextOf(st, FingerprintF);
      match e
      case TakeNeedsRole => sub.SessionS? && TakeF in st.on && role.None?
      case DropRoleAlone => sub.SessionS? && dropped.Some? && (RegisterF in st.on || role.Some?)
      case HandleNeedsMint => sub.ProjectS? && handle.Some? && st.mint.None?
      case ForgetXorConfirm => sub.PinsS? && forget.Some? && confirm.Some?
      case FingerprintGoesWithConfirm => sub.PinsS? && fingerprint.Some? && forget.Some?
      case FingerprintNeedsConfirm => sub.PinsS? && fingerprint.Some? && confirm.None?
      case ConfirmNeedsFingerprint => sub.PinsS? && confirm.Some? && fingerprint.None?
      case _ => false
  {
  }

  /** An optional plus sign, any zeros, and a positive number below the limit. */
  ghost predicate SpellsBelow(value: string, limit: nat) {
    exists n: nat, sign, zeros :: 0 < n < limit && Decimal.Spells(value, sign, zeros, n)
  }

  lemma SpellsBelowIff(value: string, limit: nat)
    ensures SpellsBelow(value, limit) <==> Decimal.Parse(value, limit).Some? && Decimal.Parse(value, limit).value > 0
  {
    var r := Decimal.Parse(value, limit);
    if r.Some? { Decimal.ParseIff(value, limit, r.value); }
    if n: nat, sign, zeros :| 0 < n < limit && Decimal.Spells(value, sign, zeros, n) {
      Decimal.SpelledIsRead(value, sign, zeros, limit, n);
    }
  }

  /** The values a flag accepts: a positive number below its limit in digits, any text that is not empty, and for
    * `--dir` anything. */
  lemma ValueAcceptedIff(st: Scanned, f: Flag, value: string)
    ensures Assign(st, f, value).Ok? <==>
            match f
            case DirF => true
            case PidF => SpellsBelow(value, 0x1_0000_0000)
            case ReleaseF => SpellsBelow(value, 0x1_0000_0000_0000_0000)
            case _ => value != ""
  {
    if f == PidF || f == ReleaseF { SpellsBelowIff(value, Limit(f)); }
  }

  /** Group `k` gives the flag this value; a switch that is given one gives it to the directory. */
  predicate Gives(gs: seq<Group>, k: nat, f: Flag, text: string) {
    && k < |gs|
    && (gs[k] == ValueG(f, text) || gs[k] == InlineG(f, text)
        || (f == FgosDirF && gs[k].InlineG? && IsSwitch(gs[k].flag) && gs[k].text == text))
  }

  /** Group `k` is the last that gives the flag a value. */
  ghost predicate LastGives(gs: seq<Group>, k: nat, f: Flag, text: string) {
    Gives(gs, k, f, text) && forall j: nat, other {:trigger Gives(gs, j, f, other)} :: j > k ==> !Gives(gs, j, f, other)
  }

  lemma {:induction false} ApplyLast(st: Scanned, gs: seq<Group>, g: Group)
    ensures ApplyAll(st, gs + [g]) ==
            match ApplyAll(st, gs) case Err(e) => Err(e) case Ok(after) => Apply(after, g)
    decreases |gs|
  {
    if gs == [] {
      assert gs + [g] == [g];
    } else {
      if Apply(st, gs[0]).Ok? { ApplyLast(Apply(st, gs[0]).value, gs[1..], g); }
      assert (gs + [g])[1..] == gs[1..] + [g];
    }
  }

  lemma {:induction false} AllFitFront(sub: Sub, gs: seq<Group>, g: Group)
    requires AllFit(sub, gs + [g])
    ensures AllFit(sub, gs) && GroupFits(sub, g)
  {
    if gs != [] {
      assert (gs + [g])[1..] == gs[1..] + [g];
      AllFitFront(sub, gs[1..], g);
    }
  }

  lemma AppliedTexts(st: Scanned, g: Group)
    requires Apply(st, g).Ok? && (g.ValueG? ==> !IsSwitch(g.flag))
    ensures Apply(st, g).value.texts ==
            if GivesText(g) then st.texts[Target(g.flag) := g.text] else st.texts
  {
  }

  predicate GivesText(g: Group) {
    (g.ValueG? || g.InlineG?) && g.flag != DirF && g.flag != PidF && g.flag != ReleaseF
  }

  /** Of several values of a flag the last one counts, and without any the flag has none. */
  lemma {:induction false} LastTextCounts(sub: Sub, gs: seq<Group>, st: Scanned, f: Flag, k: nat, text: string)
    requires AllFit(sub, gs) && ApplyAll(NOTHING, gs) == Ok(st)
    requires f != DirF && !IsSwitch(f) && f != PidF && f != ReleaseF
    ensures LastGives(gs, k, f, text) ==> f in st.texts && st.texts[f] == text
    ensures (forall j: nat, other :: !Gives(gs, j, f, other)) ==> f !in st.texts
  {
    if gs != [] {
      var n := |gs| - 1;
      var front, g := gs[..n], gs[n];
      assert gs == front + [g];
      ApplyLast(NOTHING, front, g);
      AllFitFront(sub, front, g);
      var before := ApplyAll(NOTHING, front).value;
      LastTextCounts(sub, front, before, f, k, text);
      AppliedTexts(before, g);
      TextsOneMore(front, g, f, k, text, before.texts, st.texts);
    }
  }

  lemma TextsOneMore(front: seq<Group>, g: Group, f: Flag, k: nat, text: string, was: map<Flag, string>,
                     now: map<Flag, string>)
    requires f != DirF && !IsSwitch(f) && f != PidF && f != ReleaseF && (g.ValueG? ==> !IsSwitch(g.flag))
    requires LastGives(front, k, f, text) ==> f in was && was[f] == text
    requires (forall j: nat, other :: !Gives(front, j, f, other)) ==> f !in was
    requires now == if GivesText(g) then was[Target(g.flag) := g.text] else was
    ensures LastGives(front + [g], k, f, text) ==> f in now && now[f] == text
    ensures (forall j: nat, other :: !Gives(front + [g], j, f, other)) ==> f !in now
  {
    LastOfOneMore(front, g, f, k, text);
  }

  /** A number replaces the one before it. */
  lemma LastNumberCounts(st: Scanned, f: Flag, value: string)
    requires (f == PidF || f == ReleaseF) && Assign(st, f, value).Ok?
    ensures var after := Assign(st, f, value).value;
      && Number(after, f) == Decimal.Parse(value, Limit(f)) && after.texts == st.texts
      && after.numbers - {f} == st.numbers - {f}
  {
  }

  predicate GivesTo(g: Group, f: Flag) { GivesText(g) && Target(g.flag) == f }

  lemma LastOfOneMore(front: seq<Group>, g: Group, f: Flag, k: nat, text: string)
    requires f != DirF && !IsSwitch(f) && f != PidF && f != ReleaseF && (g.ValueG? ==> !IsSwitch(g.flag))
    ensures LastGives(front + [g], k, f, text) ==>
              if GivesTo(g, f) then g.text == text else LastGives(front, k, f, text)
    ensures (forall j: nat, other :: !Gives(front + [g], j, f, other)) ==>
              !GivesTo(g, f) && forall j: nat, other :: !Gives(front, j, f, other)
  {
    var n, gs := |front|, front + [g];
    forall j: nat, other
      ensures Gives(gs, j, f, other) <==> Gives(front, j, f, other) || (j == n && GivesTo(g, f) && g.text == other) {
    }
    if GivesTo(g, f) { assert Gives(gs, n, f, g.text); }
  }

  /** The bare form and the named one read the same options. */
  lemma BareIsWriter(tokens: seq<string>)
    requires tokens == [] || Dashed(tokens[0])
    ensures Parse(["identity"] + tokens) == Parse(["identity", "writer"] + tokens)
  {
  }

  // ---------- equivalent arguments ----------

  predicate TakesValue(sub: Sub, f: Flag) { Allowed(sub, f) && !IsSwitch(f) }

  ghost predicate SpelledWaiting(sub: Sub, tokens: seq<string>, gs: seq<Group>, f: Flag) {
    AllFit(sub, gs) && ApplyAll(NOTHING, gs).Ok? && TakesValue(sub, f) && tokens == SpellAll(gs) + [FlagText(f)]
  }

  /** Groups whose values are accepted, and then a value-taking flag without its value. */
  ghost predicate Waits(sub: Sub, tokens: seq<string>) {
    exists gs, f :: SpelledWaiting(sub, tokens, gs, f)
  }

  predicate LacksValue(r: Result<Scanned, Error>) { r.Err? && r.error.RequiresValue? }

  lemma WaitingTokens(sub: Sub, tokens: seq<string>) returns (gs: seq<Group>, f: Flag)
    requires LacksValue(Scan(sub, NOTHING, tokens))
    ensures SpelledWaiting(sub, tokens, gs, f)
  {
    var rest;
    gs, rest := GroupsUpToError(sub, NOTHING, tokens);
    GroupsThenMore(sub, NOTHING, gs, rest);
    f := WaitingWord(sub, ApplyAll(NOTHING, gs).value, rest);
  }

  lemma WaitingWord(sub: Sub, st: Scanned, rest: seq<string>) returns (f: Flag)
    requires LacksValue(Scan(sub, st, rest)) && Stuck(sub, st, rest)
    ensures TakesValue(sub, f) && rest == [FlagText(f)]
  {
    f := Lex(rest[0]).flag.value;
    LexInverse(rest[0]);
  }

  lemma ValueIsNext(sub: Sub, st: Scanned, f: Flag, all: seq<string>)
    requires TakesValue(sub, f) && all != [] && all[0] == FlagText(f)
    ensures ReadOption(sub, st, all) == if |all| == 1 then Done(Err(RequiresValue(f)), 0)
            else Done(Assign(st, f, all[1]), 2)
  {
    LexOfFlag(f, "");
  }

  /** A flag that waits takes the next token as its value. */
  function TakeNext(sub: Sub, st: Scanned, f: Flag, more: seq<string>): Result<Scanned, Error> {
    if more == [] then Err(RequiresValue(f)) else ScanOn(sub, Assign(st, f, more[0]), more[1..])
  }

  lemma FlagThenMore(sub: Sub, st: Scanned, f: Flag, more: seq<string>)
    requires TakesValue(sub, f)
    ensures Scan(sub, st, [FlagText(f)] + more) == TakeNext(sub, st, f, more)
  {
    var all := [FlagText(f)] + more;
    ValueIsNext(sub, st, f, all);
    if more != [] { assert all[2..] == more[1..]; }
  }

  lemma GroupsThenFlag(sub: Sub, gs: seq<Group>, st: Scanned, f: Flag, more: seq<string>)
    requires AllFit(sub, gs) && ApplyAll(NOTHING, gs) == Ok(st) && TakesValue(sub, f)
    ensures Scan(sub, NOTHING, SpellAll(gs) + ([FlagText(f)] + more)) == TakeNext(sub, st, f, more)
  {
    GroupsThenMore(sub, NOTHING, gs, [FlagText(f)] + more);
    FlagThenMore(sub, st, f, more);
  }

  lemma WaitingTakesNext(sub: Sub, tokens: seq<string>, gs: seq<Group>, f: Flag, more: seq<string>)
    requires SpelledWaiting(sub, tokens, gs, f)
    ensures Scan(sub, NOTHING, tokens + more) == TakeNext(sub, ApplyAll(NOTHING, gs).value, f, more)
  {
    Shifted(SpellAll(gs), FlagText(f), tokens, more);
    GroupsThenFlag(sub, gs, ApplyAll(NOTHING, gs).value, f, more);
  }

  lemma Shifted(a: seq<string>, word: string, tokens: seq<string>, more: seq<string>)
    requires tokens == a + [word]
    ensures tokens + more == a + ([word] + more)
  {
  }

  /** A value is missing exactly from such tokens. */
  lemma MissingValueIff(sub: Sub, tokens: seq<string>)
    ensures Waits(sub, tokens) <==> LacksValue(Scan(sub, NOTHING, tokens))
  {
    if LacksValue(Scan(sub, NOTHING, tokens)) {
      var gs, f := WaitingTokens(sub, tokens);
      assert SpelledWaiting(sub, tokens, gs, f);
    }
    if gs, f :| SpelledWaiting(sub, tokens, gs, f) {
      WaitingTakesNext(sub, tokens, gs, f, []);
      assert tokens + [] == tokens;
    }
  }

  lemma ErrorStays(sub: Sub, st: Scanned, tokens: seq<string>, all: seq<string>)
    requires Stuck(sub, st, tokens) && tokens <= all && !LacksValue(ReadOption(sub, st, tokens).after)
    ensures ReadOption(sub, st, all) == ReadOption(sub, st, tokens)
  {
    assert all[0] == tokens[0] && (|tokens| > 1 ==> all[1] == tokens[1]);
  }

  lemma StuckIsError(sub: Sub, st: Scanned, tokens: seq<string>)
    requires Stuck(sub, st, tokens)
    ensures Scan(sub, st, tokens) == ReadOption(sub, st, tokens).after
  {
  }

  lemma ReadOnAfter(sub: Sub, st: Scanned, tokens: seq<string>, more: seq<string>)
    requires !LacksValue(Scan(sub, st, tokens))
    ensures Scan(sub, st, tokens + more) == ScanOn(sub, Scan(sub, st, tokens), more)
  {
    var gs, rest := GroupsUpToError(sub, st, tokens);
    var after := ApplyAll(st, gs).value;
    AfterGroups(sub, st, gs, after, rest, tokens);
    Regrouped(SpellAll(gs), rest, more);
    AfterGroups(sub, st, gs, after, rest + more, tokens + more);
    RestStays(sub, after, rest, more);
  }

  lemma Regrouped(a: seq<string>, b: seq<string>, c: seq<string>)
    ensures a + b + c == a + (b + c)
  {
  }

  lemma AfterGroups(sub: Sub, st: Scanned, gs: seq<Group>, after: Scanned, rest: seq<string>, tokens: seq<string>)
    requires AllFit(sub, gs) && ApplyAll(st, gs) == Ok(after) && tokens == SpellAll(gs) + rest
    ensures Scan(sub, st, tokens) == Scan(sub, after, rest)
  {
    GroupsThenMore(sub, st, gs, rest);
  }

  lemma RestStays(sub: Sub, st: Scanned, rest: seq<string>, more: seq<string>)
    requires rest != [] ==> Stuck(sub, st, rest) && !LacksValue(Scan(sub, st, rest))
    ensures Scan(sub, st, rest + more) == ScanOn(sub, Scan(sub, st, rest), more)
  {
    if rest == [] {
      assert rest + more == more;
    } else {
      StuckIsError(sub, st, rest);
      ErrorStays(sub, st, rest, rest + more);
      StuckIsError(sub, st, rest + more);
    }
  }

  /** What follows tokens that do not wait is read from the state they leave, and an error of theirs stays. */
  lemma ScanThenMore(sub: Sub, tokens: seq<string>, more: seq<string>)
    requires !Waits(sub, tokens)
    ensures Scan(sub, NOTHING, tokens + more) == ScanOn(sub, Scan(sub, NOTHING, tokens), more)
  {
    MissingValueIff(sub, tokens);
    ReadOnAfter(sub, NOTHING, tokens, more);
  }

  /** The outcome from tokens that do not wait, one group and whatever follows. */
  lemma GroupInPlace(sub: Sub, before: seq<string>, g: Group, more: seq<string>)
    requires GroupFits(sub, g) && !Waits(sub, before)
    ensures Scan(sub, NOTHING, before + (Spell(g) + more)) ==
            if Scan(sub, NOTHING, before).Ok? then ScanOn(sub, Apply(Scan(sub, NOTHING, before).value, g), more)
                else Scan(sub, NOTHING, before)
  {
    ScanThenMore(sub, before, Spell(g) + more);
    if Scan(sub, NOTHING, before).Ok? { GroupIsRead(sub, Scan(sub, NOTHING, before).value, g, more); }
  }

  /** A value given after its flag or joined to it means the same, wherever a flag is expected. */
  lemma InlineMeansTheSame(sub: Sub, argument: string, before: seq<string>, f: Flag, value: string, more: seq<string>)
    requires TakesValue(sub, f) && !Waits(sub, before)
    ensures SameInline(sub, argument, before, f, value, more)
  {
    GroupInPlace(sub, before, ValueG(f, value), more);
    GroupInPlace(sub, before, InlineG(f, value), more);
  }

  ghost predicate SameInline(sub: Sub, argument: string, before: seq<string>, f: Flag, value: string,
                             more: seq<string>) {
    ParseOptions(sub, argument, before + ([FlagText(f), value] + more)) ==
    ParseOptions(sub, argument, before + ([FlagText(f) + "=" + value] + more))
  }

  /** The two forms agree for every value and whatever follows if and only if the tokens before do not wait. */
  lemma InlineIff(sub: Sub, argument: string, before: seq<string>, f: Flag)
    requires TakesValue(sub, f)
    ensures (forall value, more :: SameInline(sub, argument, before, f, value, more)) <==> !Waits(sub, before)
  {
    if !Waits(sub, before) {
      forall value, more ensures SameInline(sub, argument, before, f, value, more) {
        InlineMeansTheSame(sub, argument, before, f, value, more);
      }
    } else {
      WaitingFlagSwallows(sub, argument, before, f);
      assert !SameInline(sub, argument, before, f, "", []);
    }
  }

  /** A flag's own text is taken as a value wherever text is wanted, and refused as a number. */
  lemma FlagAsValue(sub: Sub, st: Scanned, g: Flag, text: string)
    requires TakesValue(sub, g) && Dashed(text)
    ensures var r := Assign(st, g, text); r.Ok? || r == Err(BadNumber(g, text))
  {
    if g == PidF || g == ReleaseF { assert !Decimal.IsDigit(text[0]); }
  }

  lemma UnknownWord(sub: Sub, st: Scanned)
    ensures Scan(sub, st, [""]) == Err(UnknownOption(""))
  {
  }

  lemma BuildNeverMissesOptions(sub: Sub, argument: string, st: Scanned)
    ensures var r := BuildVerb(sub, argument, st); r.Err? ==>
            !r.error.UnknownOption? && !r.error.RequiresValue? && !r.error.BadNumber?
  {
  }

  lemma WaitingFlagSwallows(sub: Sub, argument: string, before: seq<string>, f: Flag)
    requires TakesValue(sub, f) && Waits(sub, before)
    ensures !SameInline(sub, argument, before, f, "", [])
  {
    var gs, g :| SpelledWaiting(sub, before, gs, g);
    var apart, joined := FlagText(f), FlagText(f) + "=" + "";
    FlagTextIsDashed(f);
    assert [apart, ""] + [] == [apart] + [""] && [joined] + [] == [joined] + [];
    SwallowedThenWord(sub, argument, before, gs, g, apart);
    SwallowedLast(sub, argument, before, gs, g, joined);
    assert |joined| == |apart| + 1;
  }

  lemma SwallowedThenWord(sub: Sub, argument: string, before: seq<string>, gs: seq<Group>, g: Flag, next: string)
    requires SpelledWaiting(sub, before, gs, g) && Dashed(next)
    ensures var r := ParseOptions(sub, argument, before + ([next] + [""]));
      r == Err(UnknownOption("")) || r == Err(BadNumber(g, next))
  {
    var st := ApplyAll(NOTHING, gs).value;
    var more := [next] + [""];
    WaitingTakesNext(sub, before, gs, g, more);
    assert more[1..] == [""];
    FlagAsValue(sub, st, g, next);
    if Assign(st, g, next).Ok? { UnknownWord(sub, Assign(st, g, next).value); }
  }

  lemma SwallowedLast(sub: Sub, argument: string, before: seq<string>, gs: seq<Group>, g: Flag, next: string)
    requires SpelledWaiting(sub, before, gs, g) && Dashed(next)
    ensures var r := ParseOptions(sub, argument, before + ([next] + []));
      r == Err(BadNumber(g, next)) ||
          (r.Err? ==> !r.error.UnknownOption? && !r.error.RequiresValue? && !r.error.BadNumber?)
  {
    var st := ApplyAll(NOTHING, gs).value;
    WaitingTakesNext(sub, before, gs, g, [next] + []);
    assert ([next] + [])[1..] == [];
    FlagAsValue(sub, st, g, next);
    if Assign(st, g, next).Ok? { BuildNeverMissesOptions(sub, argument, Assign(st, g, next).value); }
  }

  lemma FlagTextIsDashed(f: Flag)
    ensures Dashed(FlagText(f)) && Dashed(FlagText(f) + "=" + "")
  {
    assert (FlagText(f) + "=" + "")[0] == FlagText(f)[0];
  }

  predicate IsExtra(g: Group) {
    g.JsonG? || ((g.ValueG? || g.InlineG?) && g.flag == DirF)
  }

  /** `--json`, and `--dir` with a value in either form, change nothing after tokens that do not wait. */
  lemma ExtrasChangeNothing(sub: Sub, argument: string, before: seq<string>, extra: Group, more: seq<string>)
    requires IsExtra(extra) && !Waits(sub, before)
    ensures ParseOptions(sub, argument, before + (Spell(extra) + more)) == ParseOptions(sub, argument, before + more)
  {
    GroupInPlace(sub, before, extra, more);
    ScanThenMore(sub, before, more);
  }

  lemma TrailingJsonOption(sub: Sub, argument: string, tokens: seq<string>)
    ensures ParseOptions(sub, argument, tokens + [FlagText(JsonF)]) == ParseOptions(sub, argument, tokens) <==>
            !Waits(sub, tokens)
  {
    if Waits(sub, tokens) {
      var gs, f :| SpelledWaiting(sub, tokens, gs, f);
      MissingValueIff(sub, tokens);
      FlagTextIsDashed(JsonF);
      SwallowedLast(sub, argument, tokens, gs, f, FlagText(JsonF));
      assert [FlagText(JsonF)] + [] == [FlagText(JsonF)];
    } else {
      ExtrasChangeNothing(sub, argument, tokens, JsonG, []);
      assert Spell(JsonG) + [] == [FlagText(JsonF)] && tokens + [] == tokens;
    }
  }

  /** One more dashed word at the end leaves the verb and its argument as they were. */
  lemma HeadThenMore(args: seq<string>, word: string)
    requires Dashed(word) && args != []
    ensures Head(args).Err? ==> Head(args + [word]) == Head(args)
    ensures Head(args).Ok? ==> Head(args + [word]) == Ok(Head(args).value.(tokens := Head(args).value.tokens + [word]))
  {
    var more := args + [word];
    assert forall k :: 0 <= k < |args| ==> more[k] == args[k];
    assert more[1..] == args[1..] + [word];
    if |args| >= 2 { assert more[2..] == args[2..] + [word]; }
    if |args| >= 3 { assert more[3..] == args[3..] + [word]; }
  }

  /** A trailing `--json` leaves the outcome of the whole arguments as it is if and only if they do not end in a
    * value-taking flag without its value. */
  lemma TrailingJsonIff(args: seq<string>)
    ensures Parse(args + [FlagText(JsonF)]) == Parse(args) <==>
            !(Head(args).Ok? && Waits(Head(args).value.sub, Head(args).value.tokens))
  {
    FlagTextIsDashed(JsonF);
    if args == [] {
      MissingValueIff(WriterS, []);
      assert (args + [FlagText(JsonF)])[1..] == [];
      return;
    }
    HeadThenMore(args, FlagText(JsonF));
    if Head(args).Ok? {
      var h := Head(args).value;
      TrailingJsonOption(h.sub, h.argument, h.tokens);
    }
  }

  lemma TwoGroupsAreRead(sub: Sub, first: Group, after: Scanned, second: Group)
    requires GroupFits(sub, first) && GroupFits(sub, second) && Apply(NOTHING, first) == Ok(after)
    ensures Scan(sub, NOTHING, Spell(first) + Spell(second)) == Apply(after, second)
  {
    GroupIsRead(sub, NOTHING, first, Spell(second));
    GroupIsRead(sub, after, second, []);
    assert Spell(second) + [] == Spell(second);
  }

  /** A switch given with a value is not that switch: it names the directory, and where two
    * switches exclude each other the second one is no longer refused. */
  lemma SwitchWithValueIsDirectory(value: string)
    requires value != ""
    ensures ParseOptions(ProjectS, "", [FlagText(InitF), FlagText(InitF)]) == Err(MintTwice)
    ensures ParseOptions(ProjectS, "", [FlagText(InitF), FlagText(InitF) + "=" + value]) ==
            Ok(Request(None, Some(value), Project(Init(None))))
  {
    var st := NOTHING.(mint := Some(false));
    assert st.mint == Some(InitF == NewF);
    TwoGroupsAreRead(ProjectS, SwitchG(InitF), st, SwitchG(InitF));
    TwoGroupsAreRead(ProjectS, SwitchG(InitF), st, InlineG(InitF, value));
    assert [FlagText(InitF)] + [FlagText(InitF)] == [FlagText(InitF), FlagText(InitF)];
    assert [FlagText(InitF)] + [FlagText(InitF) + "=" + value] == [FlagText(InitF), FlagText(InitF) + "=" + value];
  }
}
