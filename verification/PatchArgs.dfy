/** The arguments of `fgos edit` built from the JSON body of a patch request
  * (apps/fgos-gateway/src/gateway.rs), and what the command reads back from them
  * (src/cli/parse-args.mjs, src/verbs/state/edit.mjs). */
module PatchArgs {
  import opened Wrappers
  import opened Text
  import opened ArgvFlags
  import opened JsonLibrary

  type Body = map<string, Json>

  /** How a field is sent and what the engine makes of it: a text, one that clears the field when empty, one
    * that must not be empty, a list, JSON text, an integer, a number that is not negative. */
  datatype Kind = Plain | Clearable | NonEmpty | List | Encoded | Integer | NonNegative {
    predicate IsNumeric() { Integer? || NonNegative? }
  }

  /** A JSON key and the flag that carries it. */
  datatype Field = Field(key: string, flag: string, kind: Kind)

  const FIELDS := [
    Field("title", "--title", Plain), Field("description", "--description", Plain),
    Field("kind", "--kind", Plain), Field("risk", "--risk", Plain), Field("verify", "--verify", Plain),
    Field("size", "--size", Plain), Field("rigor", "--rigor", Plain), Field("urgent", "--urgent", Plain),
    Field("docsRef", "--docs-ref", NonEmpty), Field("parent", "--parent", Clearable),
    Field("supersededBy", "--superseded-by", Clearable), Field("goalTier", "--goal-tier", NonEmpty),
    Field("refs", "--refs", List), Field("deps", "--deps", List), Field("footprint", "--footprint", List),
    Field("mergeAfter", "--merge-after", List), Field("duplicates", "--duplicates", List),
    Field("acceptance", "--acceptance", Encoded), Field("domainFields", "--domain-fields", Encoded),
    Field("priority", "--priority", Integer), Field("intent", "--intent", Integer),
    Field("impact", "--impact", NonNegative), Field("effort", "--effort", NonNegative)]

  const JSON_FLAG := "--json"
  const RETIRED := "tier"

  datatype PatchError =
    | LeadingDash(name: string) | RetiredTier | NotString(key: string) | NotStringList(key: string)
    | CommaInElement(key: string) | NotNumber(key: string)

  predicate LeadsWithDash(s: string) { s != "" && s[0] == '-' }

  // ---------- one field ----------

  /** What is wrong with a list element, if anything. */
  function ElementError(key: string, item: Json): Option<PatchError> {
    if !item.Str? then Some(NotStringList(key))
    else if LeadsWithDash(item.s) then Some(LeadingDash(key))
    else if ',' in item.s then Some(CommaInElement(key))
    else None
  }

  function ListError(key: string, items: seq<Json>): Option<PatchError> {
    if items == [] then None
    else if ElementError(key, items[0]).Some? then ElementError(key, items[0])
    else ListError(key, items[1..])
  }

  function FieldError(f: Field, v: Json): Option<PatchError> {
    match f.kind
    case List => if v.Arr? then ListError(f.key, v.items) else Some(NotStringList(f.key))
    case Encoded => None
    case _ =>
      if f.kind.IsNumeric() then (if v.Number? then None else Some(NotNumber(f.key)))
      else if !v.Str? then Some(NotString(f.key))
      else if LeadsWithDash(v.s) then Some(LeadingDash(f.key))
      else None
  }

  predicate StringElement(item: Json) { item.Str? && !LeadsWithDash(item.s) && ',' !in item.s }

  /** A list is accepted exactly when every element is a string free of leading dashes and commas. */
  lemma {:induction false} ListErrorIff(key: string, items: seq<Json>)
    ensures ListError(key, items).None? <==> forall k :: 0 <= k < |items| ==> StringElement(items[k])
  {
    if items != [] {
      ListErrorIff(key, items[1..]);
      assert forall k :: 1 <= k < |items| ==> items[k] == items[1..][k - 1];
      assert StringElement(items[0]) <==> ElementError(key, items[0]).None?;
    }
  }

  function Strings(items: seq<Json>): (r: seq<string>)
    ensures |r| == |items|
    ensures forall k :: 0 <= k < |r| ==> r[k] == if items[k].Str? then items[k].s else ""
  {
    if items == [] then [] else [if items[0].Str? then items[0].s else ""] + Strings(items[1..])
  }

  function ArgText(lib: Library, f: Field, v: Json): string
    requires FieldError(f, v).None?
  {
    match f.kind
    case List => Join(Strings(v.items), ',')
    case Encoded => lib.encode(v)
    case _ => if f.kind.IsNumeric() then lib.show(lib.nearest(v.n)) else v.s
  }

  /** The text the library writes for a value that is sent is not mistaken for a flag. */
  predicate PlainText(lib: Library, v: Json) {
    !IsFlag(lib.encode(v)) && (v.Number? ==> !IsFlag(lib.show(lib.nearest(v.n))))
  }

  predicate PlainTexts(lib: Library, body: Body) {
    forall key :: key in body ==> PlainText(lib, body[key])
  }

  /** No argument text is mistaken for a flag. */
  lemma TextIsNoFlag(lib: Library, f: Field, v: Json)
    requires PlainText(lib, v) && FieldError(f, v).None?
    ensures !IsFlag(ArgText(lib, f, v))
  {
    if f.kind.List? {
      ListErrorIff(f.key, v.items);
      assert v.items != [] ==> StringElement(v.items[0]);
      JoinIsNoFlag(Strings(v.items));
    }
  }

  lemma JoinIsNoFlag(parts: seq<string>)
    requires parts != [] ==> !LeadsWithDash(parts[0])
    ensures !IsFlag(Join(parts, ','))
  {
    var text := Join(parts, ',');
    if |parts| > 1 {
      assert text == parts[0] + ([','] + Join(parts[1..], ','));
      assert parts[0] == "" ==> text[0] == ',';
    }
    assert text != "" ==> text[0] != '-';
  }

  // ---------- what the engine makes of a field ----------

  function TrimStart(s: string, space: char -> bool): (r: string)
    ensures |r| <= |s| && (r != "" ==> !space(r[0])) && (s == "" || !space(s[0]) ==> r == s) && (|r| == |s| ==> r == s)
  {
    if s != "" && space(s[0]) then TrimStart(s[1..], space) else s
  }

  function TrimEnd(s: string, space: char -> bool): (r: string)
    ensures |r| <= |s| && (r != "" ==> !space(r[|r| - 1])) && (s == "" || !space(s[|s| - 1]) ==> r == s)
    ensures r != "" ==> r[0] == s[0]
  {
    if s != "" && space(s[|s| - 1]) then TrimEnd(s[..|s| - 1], space) else s
  }

  function Trim(s: string, space: char -> bool): string { TrimEnd(TrimStart(s, space), space) }

  /** Neither end is a space. */
  predicate Trimmed(s: string, space: char -> bool) { s == "" || (!space(s[0]) && !space(s[|s| - 1])) }

  lemma TrimIsTrimmed(s: string, space: char -> bool)
    ensures Trimmed(Trim(s, space), space)
    ensures Trimmed(s, space) <==> Trim(s, space) == s
  {
  }

  predicate AllSpace(s: string, space: char -> bool) { forall k :: 0 <= k < |s| ==> space(s[k]) }

  lemma {:induction false} TrimStartCuts(s: string, space: char -> bool) returns (front: string)
    ensures AllSpace(front, space) && s == front + TrimStart(s, space)
  {
    front := "";
    if s != "" && space(s[0]) {
      front := TrimStartCuts(s[1..], space);
      front := [s[0]] + front;
    }
  }

  lemma {:induction false} TrimEndCuts(s: string, space: char -> bool) returns (back: string)
    ensures AllSpace(back, space) && s == TrimEnd(s, space) + back
  {
    back := "";
    if s != "" && space(s[|s| - 1]) {
      back := TrimEndCuts(s[..|s| - 1], space);
      back := back + [s[|s| - 1]];
    }
  }

  /** Trimming cuts spaces off both ends, and all of them. */
  lemma TrimCuts(s: string, space: char -> bool) returns (front: string, back: string)
    ensures AllSpace(front, space) && AllSpace(back, space) && s == front + (Trim(s, space) + back)
    ensures Trimmed(Trim(s, space), space)
  {
    front := TrimStartCuts(s, space);
    back := TrimEndCuts(TrimStart(s, space), space);
    TrimIsTrimmed(s, space);
  }

  function TrimAll(parts: seq<string>, space: char -> bool): seq<string> {
    if parts == [] then []
    else Prefixed(Trim(parts[0], space), TrimAll(parts[1..], space))
  }

  function Prefixed(part: string, rest: seq<string>): seq<string> {
    if part == "" then rest else [part] + rest
  }

  /** The engine's reading of a list flag: split, trim, and drop what is empty. */
  function EngineList(text: string, space: char -> bool): seq<string> { TrimAll(Split(text, ','), space) }

  /** Part after part, and the trimmed part stays unless it is empty. */
  lemma {:induction false} TrimAllEach(front: seq<string>, part: string, space: char -> bool)
    ensures TrimAll(front + [part], space) ==
            TrimAll(front, space) + if Trim(part, space) == "" then [] else [Trim(part, space)]
  {
    if front == [] {
      assert front + [part] == [part];
    } else {
      TrimAllEach(front[1..], part, space);
      assert (front + [part])[1..] == front[1..] + [part];
    }
  }

  predicate Kept(part: string, space: char -> bool) { part != "" && Trimmed(part, space) }

  predicate AllKept(parts: seq<string>, space: char -> bool) {
    parts == [] || (Kept(parts[0], space) && AllKept(parts[1..], space))
  }

  lemma {:induction false} AllKeptIff(parts: seq<string>, space: char -> bool)
    ensures AllKept(parts, space) <==> forall k :: 0 <= k < |parts| ==> Kept(parts[k], space)
  {
    if parts != [] {
      AllKeptIff(parts[1..], space);
      assert forall k :: 1 <= k < |parts| ==> parts[k] == parts[1..][k - 1];
    }
  }

  lemma {:induction false} TrimAllKeeps(parts: seq<string>, space: char -> bool)
    ensures AllKept(TrimAll(parts, space), space)
    ensures AllKept(parts, space) ==> TrimAll(parts, space) == parts
  {
    if parts != [] {
      TrimAllKeeps(parts[1..], space);
      TrimIsTrimmed(parts[0], space);
      PrefixedKeeps(Trim(parts[0], space), TrimAll(parts[1..], space), space);
      assert parts == [parts[0]] + parts[1..];
    }
  }

  lemma PrefixedKeeps(part: string, rest: seq<string>, space: char -> bool)
    requires Trimmed(part, space) && AllKept(rest, space)
    ensures AllKept(Prefixed(part, rest), space)
  {
  }

  /** A list comes back from the engine exactly when each element is trimmed and not empty; on the
    * wire every non-empty list of accepted elements comes back as it was sent. */
  lemma ListComesBack(parts: seq<string>, space: char -> bool)
    requires forall k :: 0 <= k < |parts| ==> ',' !in parts[k]
    ensures parts != [] ==> Split(Join(parts, ','), ',') == parts
    ensures EngineList(Join(parts, ','), space) == parts <==> AllKept(parts, space)
  {
    if parts == [] {
      assert Split("", ',') == [""];
      assert Trim("", space) == "";
      assert TrimAll([""], space) == [];
    } else {
      SplitAfterJoin(parts, ',');
      TrimAllKeeps(parts, space);
    }
  }

  lemma ListIsTrimmed(parts: seq<string>, space: char -> bool)
    requires forall k :: 0 <= k < |parts| ==> ',' !in parts[k]
    ensures EngineList(Join(parts, ','), space) == TrimAll(parts, space)
  {
    ListComesBack(parts, space);
  }

  function Quoted(parts: seq<string>): (r: seq<Json>)
    ensures |r| == |parts| && forall k :: 0 <= k < |r| ==> r[k] == Str(parts[k])
  {
    if parts == [] then [] else [Str(parts[0])] + Quoted(parts[1..])
  }

  /** What the engine makes of one flag: a value for the patch, or an error. */
  datatype Engine = Refused | Patched(v: Json)

  function ReadField(lib: Library, kind: Kind, text: string, space: char -> bool): Engine {
    match kind
    case Plain => Patched(Str(text))
    case Clearable => Patched(if text == "" then Null else Str(text))
    case NonEmpty => if text == "" then Refused else Patched(Str(text))
    case List => Patched(Arr(Quoted(EngineList(text, space))))
    case Encoded => (match lib.decode(text) case None => Refused case Some(v) => Patched(v))
    case Integer => if IsInteger(lib.read(text)) then Patched(Number(lib.read(text))) else Refused
    case NonNegative => if IsNegative(lib.read(text)) then Refused else Patched(Number(lib.read(text)))
  }

  lemma QuotedStrings(items: seq<Json>)
    requires forall k :: 0 <= k < |items| ==> items[k].Str?
    ensures Quoted(Strings(items)) == items
  {
  }

  lemma QuotedIsInjective(a: seq<string>, b: seq<string>)
    requires Quoted(a) == Quoted(b)
    ensures a == b
  {
  }

  /** The value can be said to the engine: not empty where empty means something else, no list element empty or
    * padded, an integer where one is needed, not negative where that is refused, and no number that no double holds. */
  predicate Survives(f: Field, v: Json, space: char -> bool)
    requires FieldError(f, v).None?
  {
    match f.kind
    case Plain => true
    case Clearable => v.s != ""
    case NonEmpty => v.s != ""
    case List => AllKept(Strings(v.items), space)
    case Encoded => AllDoubles(v)
    case Integer => IsDouble(v.n) && IsInteger(v.n)
    case NonNegative => IsDouble(v.n) && !IsNegative(v.n)
  }

  /** For every accepted value: the engine patches exactly the value that was sent if and only if it survives. */
  lemma FieldComesBack(lib: Library, f: Field, v: Json, space: char -> bool)
    requires Sound(lib) && FieldError(f, v).None?
    ensures ReadField(lib, f.kind, ArgText(lib, f, v), space) == Patched(v) <==> Survives(f, v, space)
  {
    if f.kind.List? {
      ListErrorIff(f.key, v.items);
      ListComesBack(Strings(v.items), space);
      QuotedStrings(v.items);
      var got := EngineList(ArgText(lib, f, v), space);
      if Quoted(got) == v.items { QuotedIsInjective(got, Strings(v.items)); }
    } else if f.kind.Encoded? {
      RoundedIsSame(v, lib.nearest);
    }
  }

  /** The engine throws on the value. */
  predicate RefusedValue(lib: Library, f: Field, v: Json)
    requires FieldError(f, v).None?
  {
    match f.kind
    case NonEmpty => v.s == ""
    case Integer => !IsInteger(lib.nearest(v.n))
    case NonNegative => IsNegative(lib.nearest(v.n))
    case _ => false
  }

  /** What happens to the values that do not survive. */
  lemma FieldComesBackChanged(lib: Library, f: Field, v: Json, space: char -> bool)
    requires Sound(lib) && FieldError(f, v).None?
    ensures var got := ReadField(lib, f.kind, ArgText(lib, f, v), space);
      && (f.kind.Clearable? && v.s == "" ==> got == Patched(Null))
      && (got == Refused <==> RefusedValue(lib, f, v))
      && (f.kind.List? ==> got == Patched(Arr(Quoted(TrimAll(Strings(v.items), space)))))
      && (f.kind.Encoded? ==> got == Patched(Rounded(v, lib.nearest)))
      && (f.kind.IsNumeric() && got != Refused ==> got == Patched(Number(lib.nearest(v.n))))
  {
    if f.kind.List? {
      ListErrorIff(f.key, v.items);
      ListIsTrimmed(Strings(v.items), space);
    }
  }

  /** An empty parent clears the parent, and an empty path is refused. */
  lemma EmptyTexts(lib: Library, space: char -> bool)
    requires Sound(lib)
    ensures FieldError(Field("parent", "--parent", Clearable), Str("")).None?
    ensures ReadField(lib, Clearable, ArgText(lib, Field("parent", "--parent", Clearable), Str("")), space) ==
            Patched(Null)
    ensures FieldError(Field("docsRef", "--docs-ref", NonEmpty), Str("")).None?
    ensures ReadField(lib, NonEmpty, ArgText(lib, Field("docsRef", "--docs-ref", NonEmpty), Str("")), space) == Refused
  {
  }

  /** A priority of 3/2 and an impact of -1 are accepted on the way out and refused by the engine. */
  lemma RefusedNumbers(lib: Library, space: char -> bool)
    requires Sound(lib)
    ensures FieldError(Field("priority", "--priority", Integer), Number(Binary(3, -1))).None?
    ensures ReadField(lib, Integer, ArgText(lib, Field("priority", "--priority", Integer), Number(Binary(3, -1))),
            space) == Refused
    ensures FieldError(Field("impact", "--impact", NonNegative), Number(Binary(-1, 0))).None?
    ensures ReadField(lib, NonNegative, ArgText(lib, Field("impact", "--impact", NonNegative), Number(Binary(-1, 0))),
            space) == Refused
  {
    assert IsDouble(Binary(3, -1)) && IsDouble(Binary(-1, 0));
  }

  /** 2^53 + 1 inside a JSON field reaches the engine as another number. */
  lemma NestedNumberIsRounded(lib: Library, space: char -> bool)
    requires Sound(lib)
    ensures var v := Arr([Number(FromInt(0x20_0000_0000_0001))]);
      ReadField(lib, Encoded, ArgText(lib, Field("acceptance", "--acceptance", Encoded), v), space) != Patched(v)
  {
    var v := Arr([Number(FromInt(0x20_0000_0000_0001))]);
    assert !IsDouble(FromInt(0x20_0000_0000_0001));
    assert !AllDoubles(v.items[0]);
    FieldComesBack(lib, Field("acceptance", "--acceptance", Encoded), v, space);
  }

  // ---------- the whole body ----------

  predicate Sent(f: Field, body: Body) { f.key in body }

  /** The first thing wrong with a recognised field, in table order. */
  function FieldsError(fields: seq<Field>, body: Body): (r: Option<PatchError>) {
    if fields == [] then None
    else if Sent(fields[0], body) && FieldError(fields[0], body[fields[0].key]).Some? then
      FieldError(fields[0], body[fields[0].key])
    else FieldsError(fields[1..], body)
  }

  function BodyError(id: string, body: Body): Option<PatchError> {
    if LeadsWithDash(id) then Some(LeadingDash("id"))
    else if RETIRED in body then Some(RetiredTier)
    else FieldsError(FIELDS, body)
  }

  predicate Accepts(f: Field, body: Body) { Sent(f, body) ==> FieldError(f, body[f.key]).None? }

  lemma {:induction false} FieldsErrorIff(fields: seq<Field>, body: Body)
    ensures FieldsError(fields, body).None? <==> forall k :: 0 <= k < |fields| ==> Accepts(fields[k], body)
  {
    if fields != [] {
      FieldsErrorIff(fields[1..], body);
      assert forall k :: 1 <= k < |fields| ==> fields[k] == fields[1..][k - 1];
    }
  }

  function Pairs(lib: Library, fields: seq<Field>, body: Body): seq<string>
    requires FieldsError(fields, body).None?
  {
    if fields == [] then []
    else if Sent(fields[0], body) then
      [fields[0].flag, ArgText(lib, fields[0], body[fields[0].key])] + Pairs(lib, fields[1..], body)
    else Pairs(lib, fields[1..], body)
  }

  function ArgsOf(lib: Library, id: string, body: Body): seq<string>
    requires BodyError(id, body).None?
  {
    ["edit", id] + Pairs(lib, FIELDS, body) + [JSON_FLAG]
  }

  method EncodeList(key: string, v: Json) returns (r: Result<string, PatchError>)
    ensures r == if FieldError(Field(key, "", List), v).Some? then Err(FieldError(Field(key, "", List), v).value)
                 else Ok(Join(Strings(v.items), ','))
  {
    if !v.Arr? { return Err(NotStringList(key)); }
    var parts: seq<string> := [];
    var i := 0;
    while i < |v.items|
      invariant 0 <= i <= |v.items| && |parts| == i
      invariant forall k :: 0 <= k < i ==> StringElement(v.items[k]) && parts[k] == v.items[k].s
      invariant ListError(key, v.items) == ListError(key, v.items[i..])
    {
      assert v.items[i..][1..] == v.items[i + 1..];
      var item := v.items[i];
      if !item.Str? { return Err(NotStringList(key)); }
      if LeadsWithDash(item.s) { return Err(LeadingDash(key)); }
      if ',' in item.s { return Err(CommaInElement(key)); }
      parts := parts + [item.s];
      i := i + 1;
    }
    assert parts == Strings(v.items);
    r := Ok(Join(parts, ','));
  }

  method EncodeField(lib: Library, f: Field, v: Json) returns (r: Result<string, PatchError>)
    ensures r == if FieldError(f, v).Some? then Err(FieldError(f, v).value) else Ok(ArgText(lib, f, v))
  {
    if f.kind.List? {
      r := EncodeList(f.key, v);
    } else if f.kind.Encoded? {
      r := Ok(lib.encode(v));
    } else if f.kind.IsNumeric() {
      if !v.Number? { return Err(NotNumber(f.key)); }
      r := Ok(lib.show(lib.nearest(v.n)));
    } else {
      if !v.Str? { return Err(NotString(f.key)); }
      if LeadsWithDash(v.s) { return Err(LeadingDash(f.key)); }
      r := Ok(v.s);
    }
  }

  method EncodeFields(lib: Library, fields: seq<Field>, body: Body) returns (r: Result<seq<string>, PatchError>)
    ensures r == if FieldsError(fields, body).Some? then Err(FieldsError(fields, body).value)
            else Ok(Pairs(lib, fields, body))
  {
    var args: seq<string> := [];
    var i := 0;
    assert fields[0..] == fields;
    while i < |fields|
      invariant 0 <= i <= |fields|
      invariant FieldsError(fields, body) == FieldsError(fields[i..], body)
      invariant FieldsError(fields, body).None? ==> Pairs(lib, fields, body) == args + Pairs(lib, fields[i..], body)
    {
      var f := fields[i];
      assert fields[i..][0] == f && fields[i..][1..] == fields[i + 1..];
      if f.key in body {
        var text := EncodeField(lib, f, body[f.key]);
        if text.Err? { return Err(text.error); }
        args := args + [f.flag, text.value];
      }
      i := i + 1;
    }
    assert fields[i..] == [] && args + [] == args;
    r := Ok(args);
  }

  method PatchWork(lib: Library, id: string, body: Body) returns (r: Result<seq<string>, PatchError>)
    ensures r == if BodyError(id, body).Some? then Err(BodyError(id, body).value) else Ok(ArgsOf(lib, id, body))
  {
    if LeadsWithDash(id) { return Err(LeadingDash("id")); }
    if RETIRED in body { return Err(RetiredTier); }
    var pairs := EncodeFields(lib, FIELDS, body);
    r := match pairs case Err(e) => Err(e) case Ok(args) => Ok(["edit", id] + args + [JSON_FLAG]);
  }

  // ---------- reading the arguments back ----------

  /** The part of a flag after its dashes. */
  function Name(flag: string): string
    requires IsFlag(flag)
  {
    flag[2..]
  }

  predicate GoodFlag(flag: string) {
    IsFlag(flag) && !Repeatable(Name(flag)) && Name(flag) != "json" && Name(flag) != RETIRED
  }

  ghost predicate Distinct(fields: seq<Field>) {
    forall j, k :: 0 <= j < k < |fields| ==> fields[j].flag != fields[k].flag
  }

  /** The flags are well formed and no two are the same. */
  ghost predicate IsTable(fields: seq<Field>) {
    (forall k :: 0 <= k < |fields| ==> GoodFlag(fields[k].flag)) && Distinct(fields)
  }

  function ReadPairs(lib: Library, p: Parsed, fields: seq<Field>, body: Body): Parsed
    requires FieldsError(fields, body).None? && forall k :: 0 <= k < |fields| ==> IsFlag(fields[k].flag)
    decreases |fields|
  {
    if fields == [] then p
    else if Sent(fields[0], body) then
      var text := Text(ArgText(lib, fields[0], body[fields[0].key]));
      ReadPairs(lib, p.(flags := p.flags[Name(fields[0].flag) := text]), fields[1..], body)
    else ReadPairs(lib, p, fields[1..], body)
  }

  lemma ReadOnePair(p: Parsed, flag: string, text: string, rest: seq<string>)
    requires GoodFlag(flag) && !IsFlag(text)
    ensures ReadFrom(p, [flag, text] + rest) == ReadFrom(p.(flags := p.flags[Name(flag) := Text(text)]), rest)
  {
  }

  lemma {:induction false} PairsAreRead(lib: Library, p: Parsed, fields: seq<Field>, body: Body, tail: seq<string>)
    requires PlainTexts(lib, body) && FieldsError(fields, body).None? && IsTable(fields)
    ensures ReadFrom(p, Pairs(lib, fields, body) + tail) == ReadFrom(ReadPairs(lib, p, fields, body), tail)
    decreases |fields|
  {
    if fields == [] {
      assert Pairs(lib, fields, body) + tail == tail;
    } else {
      var f, rest := fields[0], fields[1..];
      assert GoodFlag(f.flag);
      if Sent(f, body) {
        var text := ArgText(lib, f, body[f.key]);
        TextIsNoFlag(lib, f, body[f.key]);
        assert Pairs(lib, fields, body) + tail == [f.flag, text] + (Pairs(lib, rest, body) + tail);
        ReadOnePair(p, f.flag, text, Pairs(lib, rest, body) + tail);
        PairsAreRead(lib, p.(flags := p.flags[Name(f.flag) := Text(text)]), rest, body, tail);
      } else {
        PairsAreRead(lib, p, rest, body, tail);
      }
    }
  }

  /** Field `k` is read exactly when it was sent, with its argument text. */
  predicate ReadsBack(lib: Library, f: Field, body: Body, flags: map<string, FlagValue>)
    requires IsFlag(f.flag) && Accepts(f, body)
  {
    && (Name(f.flag) in flags <==> Sent(f, body))
    && (Sent(f, body) ==> flags[Name(f.flag)] == Text(ArgText(lib, f, body[f.key])))
  }

  ghost predicate Carries(fields: seq<Field>, name: string, body: Body) {
    exists k :: 0 <= k < |fields| && IsFlag(fields[k].flag) && Name(fields[k].flag) == name && Sent(fields[k], body)
  }

  /** What reading the pairs does to one name: nothing, unless a sent field carries it. */
  lemma {:induction false} ReadPairsAt(lib: Library, p: Parsed, fields: seq<Field>, body: Body, name: string)
    requires FieldsError(fields, body).None? && IsTable(fields)
    ensures var q := ReadPairs(lib, p, fields, body);
      && q.positional == p.positional
      && (name in q.flags <==> name in p.flags || Carries(fields, name, body))
      && (!Carries(fields, name, body) && name in p.flags ==> q.flags[name] == p.flags[name])
    decreases |fields|
  {
    if fields != [] {
      var f, rest := fields[0], fields[1..];
      assert GoodFlag(f.flag);
      assert forall k :: 1 <= k < |fields| ==> fields[k] == rest[k - 1];
      var next := if Sent(f, body) then p.(flags := p.flags[Name(f.flag) := Text(ArgText(lib, f, body[f.key]))]) else p;
      ReadPairsAt(lib, next, rest, body, name);
      assert Carries(fields, name, body) <==> (Name(f.flag) == name && Sent(f, body)) || Carries(rest, name, body);
    }
  }

  lemma {:induction false} ReadPairsValue(lib: Library, p: Parsed, fields: seq<Field>, body: Body, k: nat)
    requires FieldsError(fields, body).None? && IsTable(fields) && k < |fields| && Sent(fields[k], body)
    ensures FieldError(fields[k], body[fields[k].key]).None?
    ensures var q := ReadPairs(lib, p, fields, body);
      Name(fields[k].flag) in q.flags &&
          q.flags[Name(fields[k].flag)] == Text(ArgText(lib, fields[k], body[fields[k].key]))
    decreases |fields|
  {
    var f, rest := fields[0], fields[1..];
    assert GoodFlag(f.flag);
    var next := if Sent(f, body) then p.(flags := p.flags[Name(f.flag) := Text(ArgText(lib, f, body[f.key]))]) else p;
    if k > 0 {
      ReadPairsValue(lib, next, rest, body, k - 1);
    } else {
      forall j | 0 <= j < |rest| ensures Name(rest[j].flag) != Name(f.flag) {
        assert rest[j] == fields[j + 1];
        DifferentNames(rest[j].flag, f.flag);
      }
      ReadPairsAt(lib, next, rest, body, Name(f.flag));
    }
  }

  lemma DifferentNames(a: string, b: string)
    requires IsFlag(a) && IsFlag(b) && a != b
    ensures Name(a) != Name(b)
  {
  }

  // ---------- the concrete table ----------

  /** The place in the table of the flag with this length and first two letters. */
  function PlaceOf(flag: string): int {
    if |flag| < 4 then -1
    else
      var c, d := flag[2], flag[3];
      match |flag|
      case 6 => if c == 'k' then 2 else if c == 's' then 5 else if c == 'd' then 13 else if d == 'i' then 3
          else if c == 'r' then 12 else -1
      case 7 => if c == 't' then 0 else if c == 'r' then 6 else -1
      case 8 => if c == 'v' then 4 else if c == 'u' then 7 else if c == 'p' then 9 else if c == 'e' then 22
          else if d == 'n' then 20 else if c == 'i' then 21 else -1
      case 10 => if c == 'd' then 8 else 19
      case 11 => if c == 'g' then 11 else 14
      case 12 => if c == 'd' then 16 else 17
      case 13 => if c == 'd' then 1 else 15
      case 15 => if c == 's' then 10 else 18
      case _ => -1
  }

  lemma FieldsHavePlaces()
    ensures forall k :: 0 <= k < |FIELDS| ==> PlaceOf(FIELDS[k].flag) == k
  {
  }

  lemma FieldsAreGood()
    ensures forall k :: 0 <= k < |FIELDS| ==> GoodFlag(FIELDS[k].flag)
  {
    assert |FIELDS| == 23;
    forall k | 0 <= k < |FIELDS| ensures GoodFlag(FIELDS[k].flag) {
      var flag := FIELDS[k].flag;
      assert flag[0] == '-' && flag[1] == '-';
      NotSpecial(flag);
    }
  }

  lemma NotSpecial(flag: string)
    requires |flag| >= 4 && flag[0] == '-' && flag[1] == '-'
    requires flag[2] != 'j' && (flag[2] == 'p' ==> |flag| != 7) && flag[2] != 'c' && (flag[2] == 't' ==> |flag| != 6)
    ensures GoodFlag(flag)
  {
  }

  lemma FieldsAreTable()
    ensures IsTable(FIELDS)
  {
    FieldsAreGood();
    FieldsHavePlaces();
  }

  /** A text for a text field, texts without commas for a list, a number for a number, none of the texts with a dash
    * in front; anything for a field that is sent as JSON. */
  predicate WellShaped(kind: Kind, v: Json) {
    match kind
    case Plain => v.Str? && (v.s == "" || v.s[0] != '-')
    case Clearable => v.Str? && (v.s == "" || v.s[0] != '-')
    case NonEmpty => v.Str? && (v.s == "" || v.s[0] != '-')
    case List => v.Arr? && forall k {:trigger v.items[k]} :: 0 <= k < |v.items| ==>
                   v.items[k].Str? && (v.items[k].s == "" || v.items[k].s[0] != '-') && ',' !in v.items[k].s
    case Encoded => true
    case Integer => v.Number?
    case NonNegative => v.Number?
  }

  lemma WellShapedIff(f: Field, v: Json)
    ensures FieldError(f, v).None? <==> WellShaped(f.kind, v)
  {
    if f.kind.List? && v.Arr? { ListErrorIff(f.key, v.items); }
  }

  /** A body is accepted exactly when the id has no leading dash, the retired field is absent, and
    * every recognised field that is sent has its shape; other fields do not matter. */
  lemma AcceptedIff(id: string, body: Body)
    ensures BodyError(id, body).None? <==>
            && (id == "" || id[0] != '-') && "tier" !in body
            && forall k :: 0 <= k < |FIELDS| && FIELDS[k].key in body ==>
                 WellShaped(FIELDS[k].kind, body[FIELDS[k].key])
  {
    FieldsErrorIff(FIELDS, body);
    forall k | 0 <= k < |FIELDS| && FIELDS[k].key in body
      ensures Accepts(FIELDS[k], body) <==> WellShaped(FIELDS[k].kind, body[FIELDS[k].key])
    {
      WellShapedIff(FIELDS[k], body[FIELDS[k].key]);
    }
  }

  /** Field `k` is the first of the table that is not accepted. */
  ghost predicate FirstWrong(fields: seq<Field>, body: Body, k: nat) {
    && k < |fields| && !Accepts(fields[k], body)
    && forall j {:trigger fields[j]} :: 0 <= j < k ==> Accepts(fields[j], body)
  }

  /** The error of a body that is not accepted: a dash before the id, the retired field, or else the first field that
    * is not well shaped. */
  lemma {:induction false} FirstErrorIs(fields: seq<Field>, body: Body, k: nat)
    ensures FirstWrong(fields, body, k) ==> FieldsError(fields, body) == FieldError(fields[k], body[fields[k].key])
  {
    if FirstWrong(fields, body, k) && k > 0 {
      assert Accepts(fields[0], body) && FirstWrong(fields[1..], body, k - 1);
      FirstErrorIs(fields[1..], body, k - 1);
    }
  }

  /** What the error of a field that is not accepted says. */
  lemma FieldErrorSays(f: Field, v: Json, e: PatchError)
    requires FieldError(f, v) == Some(e)
    ensures match e
      case NotString(key) => key == f.key && (f.kind.Plain? || f.kind.Clearable? || f.kind.NonEmpty?) && !v.Str?
      case NotNumber(key) => key == f.key && (f.kind.Integer? || f.kind.NonNegative?) && !v.Number?
      case NotStringList(key) =>
        key == f.key && f.kind.List? && (!v.Arr? || exists k :: 0 <= k < |v.items| && !v.items[k].Str?)
      case CommaInElement(key) =>
        && key == f.key && f.kind.List? && v.Arr?
        && exists k :: 0 <= k < |v.items| && v.items[k].Str? && ',' in v.items[k].s
      case LeadingDash(key) =>
        && key == f.key && !f.kind.IsNumeric() && !f.kind.Encoded?
        && if f.kind.List? then
             v.Arr? && exists k :: 0 <= k < |v.items| && v.items[k].Str? && LeadsWithDash(v.items[k].s)
           else v.Str? && LeadsWithDash(v.s)
      case RetiredTier => false
  {
    if f.kind.List? && v.Arr? {
      var k := FirstBadElement(f.key, v.items);
    }
  }

  lemma {:induction false} FirstBadElement(key: string, items: seq<Json>) returns (k: nat)
    requires ListError(key, items).Some?
    ensures k < |items| && ListError(key, items) == ElementError(key, items[k])
    ensures forall j :: 0 <= j < k ==> ElementError(key, items[j]).None?
  {
    k := 0;
    if ElementError(key, items[0]).None? {
      k := FirstBadElement(key, items[1..]);
      k := k + 1;
    }
  }

  ghost predicate AllReadBack(lib: Library, fields: seq<Field>, body: Body, flags: map<string, FlagValue>)
    requires IsTable(fields) && forall k :: 0 <= k < |fields| ==> Accepts(fields[k], body)
  {
    forall k :: 0 <= k < |fields| ==> ReadsBack(lib, fields[k], body, flags)
  }

  ghost predicate OnlyCarried(fields: seq<Field>, body: Body, flags: map<string, FlagValue>) {
    forall name :: name in flags ==> name == "json" || Carries(fields, name, body)
  }

  lemma CarriedByOne(fields: seq<Field>, k: nat, body: Body)
    requires IsTable(fields) && k < |fields|
    ensures IsFlag(fields[k].flag)
    ensures Carries(fields, Name(fields[k].flag), body) <==> Sent(fields[k], body)
  {
  }

  lemma ReadsTable(lib: Library, fields: seq<Field>, body: Body, p: Parsed)
    requires PlainTexts(lib, body) && IsTable(fields) && FieldsError(fields, body).None? && p.flags == map[]
    ensures forall k :: 0 <= k < |fields| ==> Accepts(fields[k], body)
    ensures AllReadBack(lib, fields, body, ReadPairs(lib, p, fields, body).flags)
    ensures forall name :: name in ReadPairs(lib, p, fields, body).flags ==> Carries(fields, name, body)
    ensures ReadPairs(lib, p, fields, body).positional == p.positional
  {
    FieldsErrorIff(fields, body);
    var q := ReadPairs(lib, p, fields, body);
    ReadPairsAt(lib, p, fields, body, "");
    forall k | 0 <= k < |fields| ensures ReadsBack(lib, fields[k], body, q.flags) {
      CarriedByOne(fields, k, body);
      ReadPairsAt(lib, p, fields, body, Name(fields[k].flag));
      if Sent(fields[k], body) { ReadPairsValue(lib, p, fields, body, k); }
    }
    forall name | name in q.flags ensures Carries(fields, name, body) {
      ReadPairsAt(lib, p, fields, body, name);
    }
  }

  lemma ReadHeadAndTail(id: string, pairs: seq<string>, q: Parsed)
    requires !LeadsWithDash(id)
    requires ReadFrom(Parsed(map[], ["edit", id]), pairs + [JSON_FLAG]) == ReadFrom(q, [JSON_FLAG])
    ensures Read(["edit", id] + pairs + [JSON_FLAG]) == q.(flags := q.flags["json" := Present])
  {
    assert !IsFlag("edit") by { assert "edit"[0] == 'e'; }
    TwoPositionals("edit", id, pairs + [JSON_FLAG]);
    Reassociate("edit", id, pairs, [JSON_FLAG]);
    JsonIsRead(q);
  }

  lemma Reassociate(a: string, b: string, c: seq<string>, d: seq<string>)
    ensures [a, b] + c + d == [a] + ([b] + (c + d))
  {
  }

  lemma TwoPositionals(a: string, b: string, rest: seq<string>)
    requires !IsFlag(a) && !IsFlag(b)
    ensures Read([a] + ([b] + rest)) == ReadFrom(Parsed(map[], [a, b]), rest)
  {
    PositionalIsRead(Parsed(map[], []), a, [b] + rest);
    assert [] + [a] == [a];
    PositionalIsRead(Parsed(map[], [a]), b, rest);
    assert [a] + [b] == [a, b];
  }

  lemma PositionalIsRead(p: Parsed, arg: string, rest: seq<string>)
    requires !IsFlag(arg)
    ensures ReadFrom(p, [arg] + rest) == ReadFrom(Parsed(p.flags, p.positional + [arg]), rest)
  {
  }

  lemma JsonIsRead(p: Parsed)
    ensures ReadFrom(p, [JSON_FLAG]) == p.(flags := p.flags["json" := Present])
  {
  }

  /** Reading the arguments of an accepted body gives the verb and the id, exactly the flags of the
    * recognised fields that were sent, each with its text, and the output flag. */
  lemma ArgsReadBack(lib: Library, id: string, body: Body)
    requires PlainTexts(lib, body) && BodyError(id, body).None?
    ensures IsTable(FIELDS) && forall k :: 0 <= k < |FIELDS| ==> Accepts(FIELDS[k], body)
    ensures var p := Read(ArgsOf(lib, id, body));
      && p.positional == ["edit", id]
      && "json" in p.flags && p.flags["json"] == Present
      && AllReadBack(lib, FIELDS, body, p.flags)
      && OnlyCarried(FIELDS, body, p.flags)
  {
    FieldsAreTable();
    ReadsWhole(lib, FIELDS, id, body);
  }

  lemma ReadsWhole(lib: Library, fields: seq<Field>, id: string, body: Body)
    requires PlainTexts(lib, body) && IsTable(fields) && FieldsError(fields, body).None? && !LeadsWithDash(id)
    ensures forall k :: 0 <= k < |fields| ==> Accepts(fields[k], body)
    ensures var p := Read(["edit", id] + Pairs(lib, fields, body) + [JSON_FLAG]);
      && p.positional == ["edit", id]
      && "json" in p.flags && p.flags["json"] == Present
      && AllReadBack(lib, fields, body, p.flags)
      && OnlyCarried(fields, body, p.flags)
  {
    var start := Parsed(map[], ["edit", id]);
    var q := ReadPairs(lib, start, fields, body);
    PairsAreRead(lib, start, fields, body, [JSON_FLAG]);
    ReadHeadAndTail(id, Pairs(lib, fields, body), q);
    ReadsTable(lib, fields, body, start);
    var flags := q.flags["json" := Present];
    forall k | 0 <= k < |fields| ensures ReadsBack(lib, fields[k], body, flags) {
      assert GoodFlag(fields[k].flag);
      assert ReadsBack(lib, fields[k], body, q.flags);
    }
  }

  // ---------- the engine's own table ----------

  /** A flag of the engine, by its name without the dashes, and the field of the patch that it sets. */
  datatype Rule = Rule(name: string, key: string, kind: Kind)

  const RULES := [
    Rule("title", "title", Plain), Rule("description", "description", Plain), Rule("kind", "kind", Plain),
    Rule("risk", "risk", Plain), Rule("verify", "verify", Plain), Rule("size", "size", Plain),
    Rule("rigor", "rigor", Plain), Rule("urgent", "urgent", Plain), Rule("action", "action", Plain),
    Rule("refs", "refs", List), Rule("deps", "deps", List), Rule("footprint", "footprint", List),
    Rule("acceptance", "acceptance", Encoded), Rule("domain-fields", "domainFields", Encoded),
    Rule("docs-ref", "docsRef", NonEmpty), Rule("goal-tier", "goalTier", NonEmpty),
    Rule("merge-after", "mergeAfter", List), Rule("superseded-by", "supersededBy", Clearable),
    Rule("duplicates", "duplicates", List), Rule("parent", "parent", Clearable),
    Rule("priority", "priority", Integer), Rule("intent", "intent", Integer),
    Rule("impact", "impact", NonNegative), Rule("effort", "effort", NonNegative)]

  /** What the engine must hold for a field of the gateway's table. */
  function RuleOf(f: Field): Rule
    requires IsFlag(f.flag)
  {
    Rule(Name(f.flag), f.key, f.kind)
  }

  predicate FlagNamed(fields: seq<Field>, name: string) {
    exists k :: 0 <= k < |fields| && IsFlag(fields[k].flag) && Name(fields[k].flag) == name
  }

  /** Each field has its rule, every other rule reads a flag no field has, and no two rules set one key. */
  ghost predicate Agrees(fields: seq<Field>, rules: seq<Rule>) {
    && (forall k {:trigger fields[k]} :: 0 <= k < |fields| ==> IsFlag(fields[k].flag) && RuleOf(fields[k]) in rules)
    && (forall r {:trigger r in rules} :: r in rules ==>
          (exists k :: 0 <= k < |fields| && IsFlag(fields[k].flag) && RuleOf(fields[k]) == r)
          || (!FlagNamed(fields, r.name) && r.name != "json"))
    && (forall i, j :: 0 <= i < j < |rules| ==> rules[i].key != rules[j].key)
  }

  /** The place in the engine's table of the rule for each field. */
  const RULE_PLACES := [0, 1, 2, 3, 4, 5, 6, 7, 14, 19, 17, 15, 9, 10, 11, 16, 18, 12, 13, 20, 21, 22, 23]

  /** The place of a key in the engine's table, by its length and first letters. */
  function KeyPlace(key: string): int {
    if |key| < 4 then -1
    else
      var c, d := key[0], key[1];
      match |key|
      case 4 => if c == 'k' then 2 else if c == 's' then 5 else if c == 'd' then 10 else if d == 'i' then 3 else 9
      case 5 => if c == 't' then 0 else 6
      case 6 => if c == 'v' then 4 else if c == 'u' then 7 else if c == 'a' then 8 else if c == 'p' then 19
          else if c == 'e' then 23 else if d == 'n' then 21 else 22
      case 7 => 14
      case 8 => if c == 'g' then 15 else 20
      case 9 => 11
      case 10 => if c == 'a' then 12 else if c == 'm' then 16 else 18
      case 11 => 1
      case 12 => if c == 'd' then 13 else 17
      case _ => -1
  }

  lemma RulesHavePlaces()
    ensures forall j :: 0 <= j < |RULES| ==> KeyPlace(RULES[j].key) == j
  {
  }

  /** Field `k` has its rule, with the same key, of the same kind, and with the flag's name. */
  predicate HasRule(k: nat) {
    && k < |FIELDS| && FIELDS[k].flag == DASHES + RULES[RULE_PLACES[k]].name
    && FIELDS[k].key == RULES[RULE_PLACES[k]].key && FIELDS[k].kind == RULES[RULE_PLACES[k]].kind
  }

  lemma PlainHaveRules()
    ensures HasRule(0) && HasRule(1) && HasRule(2) && HasRule(3)
  {
  }

  lemma MorePlainHaveRules()
    ensures HasRule(4) && HasRule(5) && HasRule(6) && HasRule(7)
  {
  }

  lemma NonEmptyHaveRules()
    ensures HasRule(8) && HasRule(11)
  {
  }

  lemma ClearableHaveRules()
    ensures HasRule(9) && HasRule(10)
  {
  }

  lemma ShortListsHaveRules()
    ensures HasRule(12) && HasRule(13) && HasRule(14)
  {
  }

  lemma LongListsHaveRules()
    ensures HasRule(15) && HasRule(16)
  {
  }

  lemma EncodedHaveRules()
    ensures HasRule(17) && HasRule(18)
  {
  }

  lemma NumbersHaveRules()
    ensures HasRule(19) && HasRule(20) && HasRule(21) && HasRule(22)
  {
  }

  lemma FieldsHaveRules()
    ensures forall k: nat :: k < |FIELDS| ==> HasRule(k)
  {
    PlainHaveRules();
    MorePlainHaveRules();
    NonEmptyHaveRules();
    ClearableHaveRules();
    ShortListsHaveRules();
    LongListsHaveRules();
    EncodedHaveRules();
    NumbersHaveRules();
    forall k: nat | k < |FIELDS| ensures HasRule(k) {
      assert k == 0 || k == 1 || k == 2 || k == 3 || k == 4 || k == 5 || k == 6 || k == 7 || k == 8 || k == 9 || k == 10
          || k == 11 || k == 12 || k == 13 || k == 14 || k == 15 || k == 16 || k == 17 || k == 18 || k == 19 || k == 20
          || k == 21 || k == 22;
    }
  }

  lemma RuleOfField(k: nat)
    requires HasRule(k)
    ensures IsFlag(FIELDS[k].flag) && RuleOf(FIELDS[k]) == RULES[RULE_PLACES[k]]
  {
  }

  lemma ActionHasNoPlace(flag: string)
    requires IsFlag(flag) && Name(flag) == "action"
    ensures PlaceOf(flag) == -1
  {
    assert flag == DASHES + "action";
  }

  /** No field carries the engine's flag for the action. */
  lemma ActionIsNoField()
    ensures RULES[8].name == "action" && !FlagNamed(FIELDS, "action")
  {
    FieldsHavePlaces();
    forall k | 0 <= k < |FIELDS| && IsFlag(FIELDS[k].flag) ensures Name(FIELDS[k].flag) != "action" {
      if Name(FIELDS[k].flag) == "action" { ActionHasNoPlace(FIELDS[k].flag); }
    }
  }

  /** The place of the field for each rule; the action has none. */
  const FIELD_PLACES := [0, 1, 2, 3, 4, 5, 6, 7, -1, 12, 13, 14, 17, 18, 8, 11, 15, 10, 16, 9, 19, 20, 21, 22]

  lemma RulesHaveFields(j: nat)
    requires j < |RULES| && j != 8
    ensures 0 <= FIELD_PLACES[j] < |FIELDS| && RULE_PLACES[FIELD_PLACES[j]] == j
  {
  }

  /** The gateway's table and the engine's fit together. */
  lemma TablesAgree()
    ensures Agrees(FIELDS, RULES)
  {
    FieldsHaveRules();
    forall k {:trigger FIELDS[k]} | 0 <= k < |FIELDS| ensures IsFlag(FIELDS[k].flag) && RuleOf(FIELDS[k]) in RULES {
      RuleOfField(k);
    }
    forall r | r in RULES
      ensures (exists k :: 0 <= k < |FIELDS| && IsFlag(FIELDS[k].flag) && RuleOf(FIELDS[k]) == r)
              || (!FlagNamed(FIELDS, r.name) && r.name != "json")
    {
      var j :| 0 <= j < |RULES| && RULES[j] == r;
      ActionIsNoField();
      if j != 8 {
        RulesHaveFields(j);
        RuleOfField(FIELD_PLACES[j]);
      }
    }
    RulesHavePlaces();
  }

  // ---------- the edit the engine makes ----------

  /** What the engine makes of a flag without a value. */
  function BareField(kind: Kind): Engine {
    match kind
    case Plain => Patched(Bool(true))
    case List => Patched(Arr([]))
    case _ => Refused
  }

  /** What the engine makes of one rule, given the flags it was called with. */
  function EngineField(lib: Library, r: Rule, flags: map<string, FlagValue>, space: char -> bool): Option<Engine> {
    if r.name !in flags then None
    else
      match flags[r.name]
      case Text(text) => Some(ReadField(lib, r.kind, text, space))
      case Present => Some(BareField(r.kind))
      case Many(_) => Some(Refused)
  }

  /** One error refuses the edit, and so does an empty patch; otherwise all fields are patched together. */
  datatype Edit = RefusedEdit | Edited(patch: map<string, Json>)

  predicate Errs(lib: Library, r: Rule, flags: map<string, FlagValue>, space: char -> bool) {
    EngineField(lib, r, flags, space) == Some(Refused)
  }

  predicate Patches(lib: Library, r: Rule, flags: map<string, FlagValue>, space: char -> bool) {
    EngineField(lib, r, flags, space).Some? && EngineField(lib, r, flags, space).value.Patched?
  }

  function PatchOf(lib: Library, rules: seq<Rule>, flags: map<string, FlagValue>, space: char -> bool)
      : map<string, Json>
  {
    if rules == [] then map[]
    else
      var last := rules[|rules| - 1];
      var rest := PatchOf(lib, rules[..|rules| - 1], flags, space);
      if Patches(lib, last, flags, space) then rest[last.key := EngineField(lib, last, flags, space).value.v] else rest
  }

  predicate SomeErr(lib: Library, rules: seq<Rule>, flags: map<string, FlagValue>, space: char -> bool) {
    exists r :: r in rules && Errs(lib, r, flags, space)
  }

  function EditOf(lib: Library, rules: seq<Rule>, flags: map<string, FlagValue>, space: char -> bool): Edit {
    var patch := PatchOf(lib, rules, flags, space);
    if RETIRED in flags || SomeErr(lib, rules, flags, space) || patch == map[] then RefusedEdit else Edited(patch)
  }

  method ParseEditFlags(lib: Library, rules: seq<Rule>, flags: map<string, FlagValue>, space: char -> bool)
      returns (edit: Edit)
    ensures edit == EditOf(lib, rules, flags, space)
  {
    if RETIRED in flags { return RefusedEdit; }
    var patch: map<string, Json> := map[];
    for i := 0 to |rules|
      invariant patch == PatchOf(lib, rules[..i], flags, space)
      invariant !SomeErr(lib, rules[..i], flags, space)
    {
      var r := rules[i];
      var engine := EngineField(lib, r, flags, space);
      if engine == Some(Refused) {
        assert r in rules && Errs(lib, r, flags, space);
        return RefusedEdit;
      }
      assert rules[..i + 1][..i] == rules[..i] && rules[..i + 1] == rules[..i] + [r];
      if engine.Some? { patch := patch[r.key := engine.value.v]; }
    }
    assert rules[..|rules|] == rules;
    edit := if patch == map[] then RefusedEdit else Edited(patch);
  }

  /** With different keys, the patch holds for each rule what the engine made of it. */
  lemma {:induction false} PatchAt(lib: Library, rules: seq<Rule>, flags: map<string, FlagValue>, space: char -> bool,
                                   r: Rule)
    requires r in rules && forall i, j :: 0 <= i < j < |rules| ==> rules[i].key != rules[j].key
    ensures var patch := PatchOf(lib, rules, flags, space);
      && (r.key in patch <==> Patches(lib, r, flags, space))
      && (r.key in patch ==> patch[r.key] == EngineField(lib, r, flags, space).value.v)
  {
    var n := |rules| - 1;
    if r == rules[n] {
      if r.key in PatchOf(lib, rules[..n], flags, space) { PatchKeys(lib, rules[..n], flags, space, r.key); }
    } else {
      assert r in rules[..n];
      var j :| 0 <= j < n && rules[j] == r;
      PatchAt(lib, rules[..n], flags, space, r);
    }
  }

  lemma {:induction false} PatchKeys(lib: Library, rules: seq<Rule>, flags: map<string, FlagValue>,
                                     space: char -> bool, key: string)
    requires key in PatchOf(lib, rules, flags, space)
    ensures exists r :: r in rules && r.key == key && Patches(lib, r, flags, space)
  {
    var n := |rules| - 1;
    if !(rules[n].key == key && Patches(lib, rules[n], flags, space)) {
      PatchKeys(lib, rules[..n], flags, space, key);
      var r :| r in rules[..n] && r.key == key && Patches(lib, r, flags, space);
      assert r in rules;
    }
  }

  /** A value was sent that the engine throws on. */
  ghost predicate SomeRefused(lib: Library, fields: seq<Field>, body: Body) {
    exists k :: 0 <= k < |fields| && RefusedIn(lib, fields[k], body)
  }

  predicate RefusedIn(lib: Library, f: Field, body: Body) {
    Sent(f, body) && FieldError(f, body[f.key]).None? && RefusedValue(lib, f, body[f.key])
  }

  ghost predicate NothingSent(fields: seq<Field>, body: Body) {
    forall k :: 0 <= k < |fields| ==> !Sent(fields[k], body)
  }

  predicate SurvivesIfSent(f: Field, body: Body, space: char -> bool) {
    Sent(f, body) ==> FieldError(f, body[f.key]).None? && Survives(f, body[f.key], space)
  }

  /** The edit is made, with the value that was sent for the field, or without the field when none was. */
  predicate Arrives(f: Field, body: Body, edit: Edit) {
    && edit.Edited?
    && if Sent(f, body) then f.key in edit.patch && edit.patch[f.key] == body[f.key] else f.key !in edit.patch
  }

  predicate Recognised(fields: seq<Field>, key: string) { exists k :: 0 <= k < |fields| && fields[k].key == key }

  /** The recognised fields of the body. */
  function SentPatch(fields: seq<Field>, body: Body): Body {
    map key | key in body && Recognised(fields, key) :: body[key]
  }

  /** The flags are those of the body. */
  ghost predicate FlagsOf(lib: Library, fields: seq<Field>, body: Body, flags: map<string, FlagValue>) {
    && IsTable(fields) && RETIRED !in flags && OnlyCarried(fields, body, flags)
    && forall k :: 0 <= k < |fields| ==> Accepts(fields[k], body) && ReadsBack(lib, fields[k], body, flags)
  }

  lemma FieldOutcome(lib: Library, f: Field, body: Body, flags: map<string, FlagValue>, space: char -> bool)
    requires Sound(lib) && IsFlag(f.flag) && Accepts(f, body) && ReadsBack(lib, f, body, flags)
    ensures Errs(lib, RuleOf(f), flags, space) <==> RefusedIn(lib, f, body)
    ensures Patches(lib, RuleOf(f), flags, space) <==> Sent(f, body) && !RefusedIn(lib, f, body)
    ensures Sent(f, body) ==> (EngineField(lib, RuleOf(f), flags, space) == Some(Patched(body[f.key])) <==>
                               Survives(f, body[f.key], space))
  {
    if Sent(f, body) {
      FieldComesBack(lib, f, body[f.key], space);
      FieldComesBackChanged(lib, f, body[f.key], space);
    }
  }

  /** A rule does something only when it is the rule of a field that was sent. */
  lemma RuleHasField(lib: Library, fields: seq<Field>, rules: seq<Rule>, body: Body, flags: map<string, FlagValue>,
                     space: char -> bool, r: Rule) returns (k: nat)
    requires FlagsOf(lib, fields, body, flags) && Agrees(fields, rules) && r in rules
    requires EngineField(lib, r, flags, space).Some?
    ensures k < |fields| && IsFlag(fields[k].flag) && RuleOf(fields[k]) == r && Sent(fields[k], body)
  {
    assert Carries(fields, r.name, body) || r.name == "json";
    assert Carries(fields, r.name, body) ==> FlagNamed(fields, r.name);
    k :| 0 <= k < |fields| && IsFlag(fields[k].flag) && RuleOf(fields[k]) == r;
    assert ReadsBack(lib, fields[k], body, flags);
  }

  lemma SomeErrIff(lib: Library, fields: seq<Field>, rules: seq<Rule>, body: Body, flags: map<string, FlagValue>,
                   space: char -> bool)
    requires Sound(lib) && FlagsOf(lib, fields, body, flags) && Agrees(fields, rules)
    ensures SomeErr(lib, rules, flags, space) <==> SomeRefused(lib, fields, body)
  {
    if r :| r in rules && Errs(lib, r, flags, space) {
      var k := RuleHasField(lib, fields, rules, body, flags, space, r);
      FieldOutcome(lib, fields[k], body, flags, space);
    }
    if k :| 0 <= k < |fields| && RefusedIn(lib, fields[k], body) {
      assert GoodFlag(fields[k].flag) && ReadsBack(lib, fields[k], body, flags);
      FieldOutcome(lib, fields[k], body, flags, space);
      assert RuleOf(fields[k]) in rules;
    }
  }

  lemma RefusedOf(lib: Library, fields: seq<Field>, rules: seq<Rule>, body: Body, flags: map<string, FlagValue>,
                  space: char -> bool)
    requires Sound(lib) && FlagsOf(lib, fields, body, flags) && Agrees(fields, rules)
    ensures EditOf(lib, rules, flags, space).RefusedEdit? <==>
            NothingSent(fields, body) || SomeRefused(lib, fields, body)
  {
    SomeErrIff(lib, fields, rules, body, flags, space);
    var patch := PatchOf(lib, rules, flags, space);
    if !SomeRefused(lib, fields, body) {
      if k :| 0 <= k < |fields| && Sent(fields[k], body) {
        assert GoodFlag(fields[k].flag) && ReadsBack(lib, fields[k], body, flags);
        FieldOutcome(lib, fields[k], body, flags, space);
        PatchAt(lib, rules, flags, space, RuleOf(fields[k]));
        assert fields[k].key in patch;
      } else if patch != map[] {
        var key :| key in patch;
        PatchKeys(lib, rules, flags, space, key);
        var r :| r in rules && r.key == key && Patches(lib, r, flags, space);
        var k := RuleHasField(lib, fields, rules, body, flags, space, r);
      }
    }
  }

  lemma ArrivesOf(lib: Library, fields: seq<Field>, rules: seq<Rule>, body: Body, flags: map<string, FlagValue>,
                  space: char -> bool, k: nat)
    requires Sound(lib) && FlagsOf(lib, fields, body, flags) && Agrees(fields, rules) && k < |fields|
    ensures Arrives(fields[k], body, EditOf(lib, rules, flags, space)) <==>
            EditOf(lib, rules, flags, space).Edited? && SurvivesIfSent(fields[k], body, space)
  {
    var f := fields[k];
    assert GoodFlag(f.flag) && Accepts(f, body) && ReadsBack(lib, f, body, flags);
    FieldOutcome(lib, f, body, flags, space);
    PatchAt(lib, rules, flags, space, RuleOf(f));
  }

  lemma SurvivingIsNotRefused(lib: Library, f: Field, body: Body, space: char -> bool)
    requires Sound(lib) && SurvivesIfSent(f, body, space)
    ensures !RefusedIn(lib, f, body)
  {
  }

  lemma OnlyRecognised(lib: Library, fields: seq<Field>, rules: seq<Rule>, body: Body, flags: map<string, FlagValue>,
                       space: char -> bool, key: string)
    requires FlagsOf(lib, fields, body, flags) && Agrees(fields, rules) && key in PatchOf(lib, rules, flags, space)
    ensures Recognised(fields, key)
  {
    PatchKeys(lib, rules, flags, space, key);
    var r :| r in rules && r.key == key && Patches(lib, r, flags, space);
    var k := RuleHasField(lib, fields, rules, body, flags, space, r);
  }

  lemma BodyArrivesOf(lib: Library, fields: seq<Field>, rules: seq<Rule>, body: Body, flags: map<string, FlagValue>,
                      space: char -> bool)
    requires Sound(lib) && FlagsOf(lib, fields, body, flags) && Agrees(fields, rules)
    ensures EditOf(lib, rules, flags, space) == Edited(SentPatch(fields, body)) <==>
            !NothingSent(fields, body) && forall k :: 0 <= k < |fields| ==> SurvivesIfSent(fields[k], body, space)
  {
    var edit := EditOf(lib, rules, flags, space);
    RefusedOf(lib, fields, rules, body, flags, space);
    forall k | 0 <= k < |fields|
      ensures Arrives(fields[k], body, edit) <==> edit.Edited? && SurvivesIfSent(fields[k], body, space)
    {
      ArrivesOf(lib, fields, rules, body, flags, space, k);
    }
    if forall k :: 0 <= k < |fields| ==> SurvivesIfSent(fields[k], body, space) {
      forall k | 0 <= k < |fields| ensures !RefusedIn(lib, fields[k], body) {
        SurvivingIsNotRefused(lib, fields[k], body, space);
      }
    }
    forall key | key in PatchOf(lib, rules, flags, space) ensures Recognised(fields, key) {
      OnlyRecognised(lib, fields, rules, body, flags, space, key);
    }
    SamePatchIff(fields, body, edit);
  }

  /** The whole patch is the body's exactly when each field arrives. */
  lemma SamePatchIff(fields: seq<Field>, body: Body, edit: Edit)
    requires edit.Edited? ==> forall key :: key in edit.patch ==> Recognised(fields, key)
    ensures edit == Edited(SentPatch(fields, body)) <==>
            edit.Edited? && forall k :: 0 <= k < |fields| ==> Arrives(fields[k], body, edit)
  {
    if edit.Edited? && forall k :: 0 <= k < |fields| ==> Arrives(fields[k], body, edit) {
      forall key ensures key in edit.patch <==> key in SentPatch(fields, body) {
        if Recognised(fields, key) { var k :| 0 <= k < |fields| && fields[k].key == key; }
      }
      forall key | key in edit.patch ensures edit.patch[key] == SentPatch(fields, body)[key] {
        var k :| 0 <= k < |fields| && fields[k].key == key;
      }
    }
  }

  /** What the engine makes of the request. */
  function EditFor(lib: Library, id: string, body: Body, space: char -> bool): Edit
    requires BodyError(id, body).None?
  {
    EditOf(lib, RULES, Read(ArgsOf(lib, id, body)).flags, space)
  }

  lemma NeverRetired(fields: seq<Field>, body: Body, flags: map<string, FlagValue>)
    requires IsTable(fields) && OnlyCarried(fields, body, flags)
    ensures RETIRED !in flags
  {
  }

  lemma FlagsAreOfBody(lib: Library, id: string, body: Body)
    requires Sound(lib) && PlainTexts(lib, body) && BodyError(id, body).None?
    ensures FlagsOf(lib, FIELDS, body, Read(ArgsOf(lib, id, body)).flags)
  {
    ArgsReadBack(lib, id, body);
    NeverRetired(FIELDS, body, Read(ArgsOf(lib, id, body)).flags);
  }

  /** From the request to the engine: an accepted body is refused by the engine exactly when it has no recognised
    * field, or some value it sends is empty for a field that must not be, has a double that is no integer for
    * priority or intent, or a negative one for impact or effort. */
  lemma EditRefusedIff(lib: Library, id: string, body: Body, space: char -> bool)
    requires Sound(lib) && PlainTexts(lib, body) && BodyError(id, body).None?
    ensures EditFor(lib, id, body, space).RefusedEdit? <==> NothingSent(FIELDS, body) || SomeRefused(lib, FIELDS, body)
  {
    FlagsAreOfBody(lib, id, body);
    TablesAgree();
    RefusedOf(lib, FIELDS, RULES, body, Read(ArgsOf(lib, id, body)).flags, space);
  }

  /** A field arrives as it was sent if and only if its value survives and the edit is not refused for any other. */
  lemma FieldArrivesIff(lib: Library, id: string, body: Body, space: char -> bool, k: nat)
    requires Sound(lib) && PlainTexts(lib, body) && BodyError(id, body).None? && k < |FIELDS|
    ensures Arrives(FIELDS[k], body, EditFor(lib, id, body, space)) <==>
            && SurvivesIfSent(FIELDS[k], body, space)
            && !NothingSent(FIELDS, body) && !SomeRefused(lib, FIELDS, body)
  {
    FlagsAreOfBody(lib, id, body);
    TablesAgree();
    ArrivesOf(lib, FIELDS, RULES, body, Read(ArgsOf(lib, id, body)).flags, space, k);
    EditRefusedIff(lib, id, body, space);
  }

  /** The patch is exactly the recognised fields of the body, each under its own key, if and only if there is one and
    * every value that was sent survives. */
  lemma BodyArrivesIff(lib: Library, id: string, body: Body, space: char -> bool)
    requires Sound(lib) && PlainTexts(lib, body) && BodyError(id, body).None?
    ensures EditFor(lib, id, body, space) == Edited(SentPatch(FIELDS, body)) <==>
            !NothingSent(FIELDS, body) && forall k :: 0 <= k < |FIELDS| ==> SurvivesIfSent(FIELDS[k], body, space)
  {
    FlagsAreOfBody(lib, id, body);
    TablesAgree();
    BodyArrivesOf(lib, FIELDS, RULES, body, Read(ArgsOf(lib, id, body)).flags, space);
  }

  /** Fields that are no texts have keys of other lengths than these two. */
  lemma OtherKeysDiffer()
    ensures forall k :: 0 <= k < |FIELDS| && (FIELDS[k].kind.List? || FIELDS[k].kind.IsNumeric()) ==>
                          |FIELDS[k].key| != 5 && |FIELDS[k].key| != 7
  {
    assert |FIELDS| == 23;
  }

  predicate TitleAndEmptyPath(body: Body) {
    body.Keys == {"title", "docsRef"} && body["title"] == Str("x") && body["docsRef"] == Str("")
  }

  /** A good title beside an empty path: the body is accepted, the title alone survives, and nothing is patched. */
  lemma OneRefusedFieldStopsAll(lib: Library, id: string, body: Body, space: char -> bool)
    requires Sound(lib) && PlainTexts(lib, body) && !LeadsWithDash(id) && TitleAndEmptyPath(body)
    ensures BodyError(id, body).None?
    ensures FIELDS[0].key == "title" && SurvivesIfSent(FIELDS[0], body, space)
    ensures EditFor(lib, id, body, space).RefusedEdit? && !Arrives(FIELDS[0], body, EditFor(lib, id, body, space))
  {
    TwoTextsAreAccepted(id, body);
    EmptyPathIsRefused(lib, body);
    EditRefusedIff(lib, id, body, space);
  }

  lemma EmptyPathIsRefused(lib: Library, body: Body)
    requires TitleAndEmptyPath(body)
    ensures SomeRefused(lib, FIELDS, body)
  {
    var f := FIELDS[8];
    assert f == Field("docsRef", "--docs-ref", NonEmpty);
    assert RefusedIn(lib, FIELDS[8], body);
  }

  lemma TwoTextsAreAccepted(id: string, body: Body)
    requires !LeadsWithDash(id) && TitleAndEmptyPath(body)
    ensures BodyError(id, body).None?
  {
    OtherKeysDiffer();
    forall k | 0 <= k < |FIELDS| ensures Accepts(FIELDS[k], body) {
      if Sent(FIELDS[k], body) { assert |FIELDS[k].key| == 5 || |FIELDS[k].key| == 7; }
    }
    assert |RETIRED| == 4;
    AcceptedIff(id, body);
  }

  // ---------- each flag once ----------

  ghost predicate FlagsOnce(args: seq<string>) {
    forall i, j :: 0 <= i < j < |args| && IsFlag(args[i]) && IsFlag(args[j]) ==> args[i] != args[j]
  }

  lemma {:induction false} PairFlagsAreSent(lib: Library, fields: seq<Field>, body: Body, i: nat) returns (k: nat)
    requires PlainTexts(lib, body) && FieldsError(fields, body).None?
    requires i < |Pairs(lib, fields, body)| && IsFlag(Pairs(lib, fields, body)[i])
    ensures k < |fields| && fields[k].flag == Pairs(lib, fields, body)[i]
    decreases |fields|
  {
    var f, rest := fields[0], fields[1..];
    if !Sent(f, body) {
      k := PairFlagsAreSent(lib, rest, body, i);
      k := k + 1;
    } else if i == 0 {
      k := 0;
    } else {
      TextIsNoFlag(lib, f, body[f.key]);
      k := PairFlagsAreSent(lib, rest, body, i - 2);
      k := k + 1;
    }
  }

  /** No flag is given twice. */
  lemma {:induction false} EachFlagOnce(lib: Library, fields: seq<Field>, body: Body)
    requires PlainTexts(lib, body) && FieldsError(fields, body).None? && IsTable(fields)
    ensures FlagsOnce(Pairs(lib, fields, body))
    decreases |fields|
  {
    if fields != [] {
      var f, rest := fields[0], fields[1..];
      EachFlagOnce(lib, rest, body);
      var tail := Pairs(lib, rest, body);
      if Sent(f, body) {
        TextIsNoFlag(lib, f, body[f.key]);
        forall i | 0 <= i < |tail| && IsFlag(tail[i]) ensures tail[i] != f.flag {
          var k := PairFlagsAreSent(lib, rest, body, i);
          assert fields[k + 1] == rest[k];
        }
        OnePairOnce(f.flag, ArgText(lib, f, body[f.key]), tail);
      }
    }
  }

  lemma OnePairOnce(flag: string, text: string, tail: seq<string>)
    requires FlagsOnce(tail) && !IsFlag(text) && forall i :: 0 <= i < |tail| && IsFlag(tail[i]) ==> tail[i] != flag
    ensures FlagsOnce([flag, text] + tail)
  {
  }

  lemma ArgsHoldEachFlagOnce(lib: Library, id: string, body: Body)
    requires PlainTexts(lib, body) && BodyError(id, body).None?
    ensures FlagsOnce(ArgsOf(lib, id, body))
  {
    FieldsAreTable();
    WholeHoldsEachFlagOnce(lib, FIELDS, id, body);
  }

  lemma WholeHoldsEachFlagOnce(lib: Library, fields: seq<Field>, id: string, body: Body)
    requires PlainTexts(lib, body) && IsTable(fields) && FieldsError(fields, body).None? && !LeadsWithDash(id)
    ensures FlagsOnce(["edit", id] + Pairs(lib, fields, body) + [JSON_FLAG])
  {
    EachFlagOnce(lib, fields, body);
    var pairs := Pairs(lib, fields, body);
    assert JSON_FLAG[2..] == "json";
    forall i | 0 <= i < |pairs| && IsFlag(pairs[i]) ensures pairs[i] != JSON_FLAG {
      var k := PairFlagsAreSent(lib, fields, body, i);
      assert GoodFlag(fields[k].flag);
    }
    assert "edit"[0] == 'e';
    var args := ["edit", id] + pairs + [JSON_FLAG];
    assert forall i :: 2 <= i < 2 + |pairs| ==> args[i] == pairs[i - 2];
    assert args[|args| - 1] == JSON_FLAG && args[0] == "edit" && args[1] == id;
  }
}
