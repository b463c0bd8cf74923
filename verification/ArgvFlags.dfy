/** How the command line reads its arguments (src/cli/parse-args.mjs). */
module ArgvFlags {
  datatype FlagValue = Present | Text(text: string) | Many(uses: seq<FlagValue>)

  datatype Parsed = Parsed(flags: map<string, FlagValue>, positional: seq<string>)

  const DASHES := "--"

  predicate IsFlag(arg: string) { DASHES <= arg }

  predicate Repeatable(key: string) { key == "context-ref" || key == "param" }

  function Put(p: Parsed, key: string, value: FlagValue): Parsed {
    var before := if key in p.flags && p.flags[key].Many? then p.flags[key].uses else [];
    p.(flags := p.flags[key := if Repeatable(key) then Many(before + [value]) else value])
  }

  function ReadFrom(p: Parsed, args: seq<string>): Parsed
    decreases |args|
  {
    if args == [] then p
    else if !IsFlag(args[0]) then ReadFrom(p.(positional := p.positional + [args[0]]), args[1..])
    else if |args| > 1 && !IsFlag(args[1]) then ReadFrom(Put(p, args[0][2..], Text(args[1])), args[2..])
    else ReadFrom(Put(p, args[0][2..], Present), args[1..])
  }

  function Read(args: seq<string>): Parsed { ReadFrom(Parsed(map[], []), args) }

  method ParseArgs(args: seq<string>) returns (p: Parsed)
    ensures p == Read(args)
  {
    p := Parsed(map[], []);
    var i := 0;
    while i < |args|
      invariant 0 <= i <= |args|
      invariant Read(args) == ReadFrom(p, args[i..])
    {
      assert args[i..][1..] == args[i + 1..];
      if IsFlag(args[i]) {
        if i + 1 < |args| && !IsFlag(args[i + 1]) {
          assert args[i..][2..] == args[i + 2..];
          p := Put(p, args[i][2..], Text(args[i + 1]));
          i := i + 1;
        } else {
          p := Put(p, args[i][2..], Present);
        }
      } else {
        p := p.(positional := p.positional + [args[i]]);
      }
      i := i + 1;
    }
  }
}
