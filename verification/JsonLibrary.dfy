/** JSON values and the two libraries that write them to text and read them back: serde_json on the way out
  * (apps/fgos-gateway/src/gateway.rs), the JavaScript engine on the way in (src/verbs/state/edit.mjs). */
module JsonLibrary {
  import opened Wrappers

  /** The number `mantissa * 2^exponent`, each number once. */
  datatype Binary = Binary(mantissa: int, exponent: int)

  predicate Reduced(n: Binary) {
    if n.mantissa == 0 then n.exponent == 0 else n.mantissa % 2 == 1
  }

  type Numeral = n: Binary | Reduced(n) witness Binary(0, 0)

  function Power2(k: nat): int { if k == 0 then 1 else 2 * Power2(k - 1) }

  /** A finite double holds the number: 53 bits, from 2^-1074 to below 2^1024. */
  predicate IsDouble(n: Numeral) {
    && -0x20_0000_0000_0000 < n.mantissa < 0x20_0000_0000_0000 && -1074 <= n.exponent <= 1023
    && (n.exponent > 971 ==> -Power2(1024 - n.exponent) < n.mantissa < Power2(1024 - n.exponent))
  }

  predicate IsInteger(n: Numeral) { n.exponent >= 0 }

  predicate IsNegative(n: Numeral) { n.mantissa < 0 }

  /** The number of an integer. */
  function FromInt(i: int): Numeral
    decreases if i < 0 then -i else i
  {
    if i == 0 then Binary(0, 0) else if i % 2 == 1 then Binary(i, 0) else Doubled(FromInt(i / 2))
  }

  function Doubled(n: Numeral): Numeral
  {
    if n.mantissa == 0 then n else Binary(n.mantissa, n.exponent + 1)
  }

  datatype Json =
    | Null | Bool(b: bool) | Number(n: Numeral) | Str(s: string)
    | Arr(items: seq<Json>) | Obj(members: map<string, Json>)

  /** Every number in the value is one that a double holds. */
  predicate AllDoubles(v: Json) {
    match v
    case Number(n) => IsDouble(n)
    case Arr(items) => forall k :: 0 <= k < |items| ==> AllDoubles(items[k])
    case Obj(members) => forall key :: key in members ==> AllDoubles(members[key])
    case _ => true
  }

  /** The value with every number replaced by the double that stands for it. */
  function Rounded(v: Json, nearest: Numeral -> Numeral): Json {
    match v
    case Number(n) => Number(nearest(n))
    case Arr(items) => Arr(seq(|items|, k requires 0 <= k < |items| => Rounded(items[k], nearest)))
    case Obj(members) => Obj(map key | key in members :: Rounded(members[key], nearest))
    case _ => v
  }

  /** `encode` and `decode` are the JSON text of a value and back, `nearest` the double that stands for a
    * number, `show` and `read` its decimal text and back. */
  datatype Library = Library(encode: Json -> string, decode: string -> Option<Json>,
                             nearest: Numeral -> Numeral, show: Numeral -> string, read: string -> Numeral)

  ghost predicate RoundsToDoubles(nearest: Numeral -> Numeral) {
    forall x :: IsDouble(nearest(x)) && (IsDouble(x) ==> nearest(x) == x)
  }

  /** What is assumed of them: the engine reads a text back with every number as its double. */
  ghost predicate Sound(lib: Library) {
    && RoundsToDoubles(lib.nearest)
    && (forall v :: lib.decode(lib.encode(v)) == Some(Rounded(v, lib.nearest)))
    && (forall x :: IsDouble(x) ==> lib.read(lib.show(x)) == x)
  }

  /** A value comes back unchanged exactly when doubles hold all its numbers. */
  lemma {:induction false} RoundedIsSame(v: Json, nearest: Numeral -> Numeral)
    requires RoundsToDoubles(nearest)
    ensures Rounded(v, nearest) == v <==> AllDoubles(v)
  {
    match v
    case Arr(items) =>
      forall k | 0 <= k < |items| ensures Rounded(items[k], nearest) == items[k] <==> AllDoubles(items[k]) {
        RoundedIsSame(items[k], nearest);
      }
      assert Rounded(v, nearest) == v <==> forall k :: 0 <= k < |items| ==> Rounded(items[k], nearest) == items[k];
    case Obj(members) =>
      forall key | key in members ensures Rounded(members[key], nearest) == members[key] <==> AllDoubles(members[key]) {
        RoundedIsSame(members[key], nearest);
      }
      assert Rounded(v, nearest) == v <==>
             forall key :: key in members ==> Rounded(members[key], nearest) == members[key];
    case _ =>
  }

  // ---------- there are such libraries ----------

  /** A text for every value, in front of `rest`, written so that no text begins another one. */
  ghost function Spell(v: Json, rest: string): string
    decreases v, 1
  {
    match v
    case Null => ['n'] + rest
    case Bool(b) => [if b then 't' else 'f'] + rest
    case Number(n) => ['#'] + IntText(n.mantissa, IntText(n.exponent, rest))
    case Str(s) => ['s'] + StringText(s, rest)
    case Arr(items) => ['['] + ItemsText(v, items, rest)
    case Obj(members) => ['{'] + MembersText(v, members, rest)
  }

  ghost function NatText(n: nat, rest: string): string { if n == 0 then ['.'] + rest else ['1'] + NatText(n - 1, rest) }

  ghost function IntText(i: int, rest: string): string {
    if i < 0 then ['-'] + NatText(-i, rest) else ['+'] + NatText(i, rest)
  }

  ghost function StringText(s: string, rest: string): string {
    if s == "" then ['.'] + rest else ['c'] + ([s[0]] + StringText(s[1..], rest))
  }

  ghost function ItemsText(v: Json, items: seq<Json>, rest: string): string
    requires forall k :: 0 <= k < |items| ==> items[k] < v
    decreases v, 0, |items|
  {
    if items == [] then ['.'] + rest else [','] + Spell(items[0], ItemsText(v, items[1..], rest))
  }

  ghost function MembersText(v: Json, members: map<string, Json>, rest: string): string
    requires forall key :: key in members ==> members[key] < v
    decreases v, 0, |members|
  {
    if members == map[] then ['.'] + rest
    else
      var key := SomeKey(members);
      [','] + StringText(key, Spell(members[key], MembersText(v, members - {key}, rest)))
  }

  ghost function SomeKey(members: map<string, Json>): (key: string)
    requires members != map[]
    ensures key in members
  {
    assert members.Keys != {};
    var key :| key in members; key
  }

  lemma HeadAndTail(c: char, r: string, d: char, s: string)
    requires [c] + r == [d] + s
    ensures c == d && r == s
  {
    assert r == ([c] + r)[1..] && s == ([d] + s)[1..];
    assert c == ([c] + r)[0];
  }

  lemma {:induction false} NatTextIsPrefixFree(m: nat, n: nat, r: string, s: string)
    requires NatText(m, r) == NatText(n, s)
    ensures m == n && r == s
  {
    HeadAndTail(if m == 0 then '.' else '1', if m == 0 then r else NatText(m - 1, r),
                if n == 0 then '.' else '1', if n == 0 then s else NatText(n - 1, s));
    if m > 0 { NatTextIsPrefixFree(m - 1, n - 1, r, s); }
  }

  lemma IntTextIsPrefixFree(i: int, j: int, r: string, s: string)
    requires IntText(i, r) == IntText(j, s)
    ensures i == j && r == s
  {
    var a: nat, b: nat := if i < 0 then -i else i, if j < 0 then -j else j;
    HeadAndTail(if i < 0 then '-' else '+', NatText(a, r), if j < 0 then '-' else '+', NatText(b, s));
    NatTextIsPrefixFree(a, b, r, s);
  }

  lemma {:induction false} StringTextIsPrefixFree(a: string, b: string, r: string, s: string)
    requires StringText(a, r) == StringText(b, s)
    ensures a == b && r == s
  {
    HeadAndTail(if a == "" then '.' else 'c', if a == "" then r else [a[0]] + StringText(a[1..], r),
                if b == "" then '.' else 'c', if b == "" then s else [b[0]] + StringText(b[1..], s));
    if a != "" {
      HeadAndTail(a[0], StringText(a[1..], r), b[0], StringText(b[1..], s));
      StringTextIsPrefixFree(a[1..], b[1..], r, s);
      assert a == [a[0]] + a[1..] && b == [b[0]] + b[1..];
    }
  }

  lemma {:induction false} ItemsTextIsPrefixFree(v: Json, w: Json, a: seq<Json>, b: seq<Json>, r: string, s: string)
    requires (forall k :: 0 <= k < |a| ==> a[k] < v) && (forall k :: 0 <= k < |b| ==> b[k] < w)
    requires ItemsText(v, a, r) == ItemsText(w, b, s)
    ensures a == b && r == s
    decreases v, 0, |a|
  {
    HeadAndTail(if a == [] then '.' else ',', if a == [] then r else Spell(a[0], ItemsText(v, a[1..], r)),
                if b == [] then '.' else ',', if b == [] then s else Spell(b[0], ItemsText(w, b[1..], s)));
    if a != [] {
      SpellIsPrefixFree(a[0], b[0], ItemsText(v, a[1..], r), ItemsText(w, b[1..], s));
      ItemsTextIsPrefixFree(v, w, a[1..], b[1..], r, s);
      assert a == [a[0]] + a[1..] && b == [b[0]] + b[1..];
    }
  }

  lemma {:induction false} MembersTextIsPrefixFree(v: Json, w: Json, a: map<string, Json>, b: map<string, Json>,
                                                   r: string, s: string)
    requires (forall k :: k in a ==> a[k] < v) && (forall k :: k in b ==> b[k] < w)
    requires MembersText(v, a, r) == MembersText(w, b, s)
    ensures a == b && r == s
    decreases v, 0, |a|
  {
    if a != map[] && b != map[] {
      var j, k := SomeKey(a), SomeKey(b);
      var x, y := MembersText(v, a - {j}, r), MembersText(w, b - {k}, s);
      HeadAndTail(',', StringText(j, Spell(a[j], x)), ',', StringText(k, Spell(b[k], y)));
      StringTextIsPrefixFree(j, k, Spell(a[j], x), Spell(b[k], y));
      SpellIsPrefixFree(a[j], b[k], x, y);
      MembersTextIsPrefixFree(v, w, a - {j}, b - {k}, r, s);
      assert a == (a - {j})[j := a[j]] && b == (b - {k})[k := b[k]];
    } else {
      assert MembersText(v, a, r)[0] == if a == map[] then '.' else ',';
      assert MembersText(w, b, s)[0] == if b == map[] then '.' else ',';
      HeadAndTail('.', r, '.', s);
    }
  }

  function Mark(v: Json): char {
    match v
    case Null => 'n' case Bool(b) => if b then 't' else 'f' case Number(_) => '#'
    case Str(_) => 's' case Arr(_) => '[' case Obj(_) => '{'
  }

  /** From a text followed by anything the value can be told. */
  lemma {:induction false} SpellIsPrefixFree(v: Json, w: Json, r: string, s: string)
    requires Spell(v, r) == Spell(w, s)
    ensures v == w && r == s
    decreases v, 1
  {
    assert Spell(v, r)[0] == Mark(v) && Spell(w, s)[0] == Mark(w);
    assert Spell(v, r)[1..] == Spell(w, s)[1..];
    match v
    case Null => HeadAndTail('n', r, 'n', s);
    case Bool(b) => HeadAndTail(Mark(v), r, Mark(w), s);
    case Number(n) =>
      var m := w.n;
      HeadAndTail('#', IntText(n.mantissa, IntText(n.exponent, r)), '#', IntText(m.mantissa, IntText(m.exponent, s)));
      IntTextIsPrefixFree(n.mantissa, m.mantissa, IntText(n.exponent, r), IntText(m.exponent, s));
      IntTextIsPrefixFree(n.exponent, m.exponent, r, s);
    case Str(a) =>
      HeadAndTail('s', StringText(a, r), 's', StringText(w.s, s));
      StringTextIsPrefixFree(a, w.s, r, s);
    case Arr(items) =>
      HeadAndTail('[', ItemsText(v, items, r), '[', ItemsText(w, w.items, s));
      ItemsTextIsPrefixFree(v, w, items, w.items, r, s);
    case Obj(members) =>
      HeadAndTail('{', MembersText(v, members, r), '{', MembersText(w, w.members, s));
      MembersTextIsPrefixFree(v, w, members, w.members, r, s);
  }

  ghost function Written(v: Json): string { Spell(v, "") }

  ghost function ReadBack(text: string, nearest: Numeral -> Numeral): Option<Json> {
    if exists v :: Written(v) == text then
      var v :| Written(v) == text; Some(Rounded(v, nearest))
    else None
  }

  function DoubleOrZero(x: Numeral): Numeral { if IsDouble(x) then x else Binary(0, 0) }

  ghost function ReadNumber(text: string): Numeral {
    match ReadBack(text, (x: Numeral) => DoubleOrZero(x)) case Some(Number(n)) => n case _ => Binary(0, 0)
  }

  /** No text of the library starts with two dashes. */
  ghost predicate NeverDashed(lib: Library) {
    && (forall v :: !("--" <= lib.encode(v)))
    && (forall x :: !("--" <= lib.show(x)))
  }

  lemma WrittenIsReadBack(v: Json, nearest: Numeral -> Numeral)
    ensures ReadBack(Written(v), nearest) == Some(Rounded(v, nearest)) && !("--" <= Written(v))
  {
    forall w | Written(w) == Written(v) ensures w == v {
      SpellIsPrefixFree(w, v, "", "");
    }
    assert Written(v)[0] == Mark(v);
  }

  /** The assumptions can be met, all at once. */
  lemma SoundLibraryExists()
    ensures exists lib :: Sound(lib) && NeverDashed(lib)
  {
    var nearest := (x: Numeral) => DoubleOrZero(x);
    var lib := Library(v => Written(v), text => ReadBack(text, nearest), nearest, (x: Numeral) => Written(Number(x)),
        text => ReadNumber(text));
    forall v ensures lib.decode(lib.encode(v)) == Some(Rounded(v, nearest)) && !("--" <= lib.encode(v)) {
      WrittenIsReadBack(v, nearest);
    }
    forall x ensures !("--" <= lib.show(x)) && (IsDouble(x) ==> lib.read(lib.show(x)) == x) {
      WrittenIsReadBack(Number(x), nearest);
    }
    assert Sound(lib) && NeverDashed(lib);
  }
}
