/** Splitting on a character and joining again. */
module Text {
  function Split(s: string, sep: char): (parts: seq<string>)
    ensures parts != []
    ensures forall part :: part in parts ==> sep !in part
  {
    if s == "" then [""]
    else
      var rest := Split(s[1..], sep);
      if s[0] == sep then [""] + rest else [[s[0]] + rest[0]] + rest[1..]
  }

  function Join(parts: seq<string>, sep: char): string {
    if parts == [] then ""
    else if |parts| == 1 then parts[0]
    else parts[0] + [sep] + Join(parts[1..], sep)
  }

  lemma {:induction false} JoinAfterSplit(s: string, sep: char)
    ensures Join(Split(s, sep), sep) == s
  {
    if s != "" {
      var rest := Split(s[1..], sep);
      JoinAfterSplit(s[1..], sep);
      if s[0] == sep {
        assert ([""] + rest)[1..] == rest;
      } else {
        var parts := [[s[0]] + rest[0]] + rest[1..];
        assert parts[1..] == rest[1..];
        assert Join(parts, sep) == [s[0]] + Join(rest, sep);
      }
    }
  }

  lemma {:induction false} SplitOfPlain(s: string, sep: char)
    requires sep !in s
    ensures Split(s, sep) == [s]
  {
    if s != "" {
      SplitOfPlain(s[1..], sep);
      assert s == [s[0]] + s[1..];
      assert Split(s[1..], sep)[1..] == [];
    }
  }

  lemma {:induction false} SplitAtSeparator(s: string, rest: string, sep: char)
    requires sep !in s
    ensures Split(s + [sep] + rest, sep) == [s] + Split(rest, sep)
  {
    var whole := s + [sep] + rest;
    if s == "" {
      assert whole[1..] == rest;
    } else {
      assert whole[1..] == s[1..] + [sep] + rest;
      SplitAtSeparator(s[1..], rest, sep);
      var tail := Split(whole[1..], sep);
      assert tail[0] == s[1..] && tail[1..] == Split(rest, sep);
      assert [s[0]] + tail[0] == s;
    }
  }

  /** Every non-empty list whose parts do not hold the separator comes back. */
  lemma {:induction false} SplitAfterJoin(parts: seq<string>, sep: char)
    requires parts != [] && forall part :: part in parts ==> sep !in part
    ensures Split(Join(parts, sep), sep) == parts
  {
    if |parts| == 1 {
      SplitOfPlain(parts[0], sep);
    } else {
      SplitAfterJoin(parts[1..], sep);
      SplitAtSeparator(parts[0], Join(parts[1..], sep), sep);
    }
  }

  datatype Cut = Whole | At(head: string, tail: string)

  /** Cuts at the first separator. */
  function SplitOnce(s: string, sep: char): Cut {
    if s == "" then Whole
    else if s[0] == sep then At("", s[1..])
    else
      match SplitOnce(s[1..], sep)
      case Whole => Whole
      case At(head, tail) => At([s[0]] + head, tail)
  }

  lemma {:induction false} SplitOnceOfPlain(s: string, sep: char)
    ensures SplitOnce(s, sep) == Whole <==> sep !in s
  {
    if s != "" {
      SplitOnceOfPlain(s[1..], sep);
      assert s == [s[0]] + s[1..];
    }
  }

  lemma {:induction false} SplitOnceAtSeparator(head: string, tail: string, sep: char)
    requires sep !in head
    ensures SplitOnce(head + [sep] + tail, sep) == At(head, tail)
  {
    var s := head + [sep] + tail;
    if head == "" {
      assert s[1..] == tail;
    } else {
      SplitOnceAtSeparator(head[1..], tail, sep);
      assert s[1..] == head[1..] + [sep] + tail;
      assert head == [head[0]] + head[1..];
    }
  }

  lemma {:induction false} JoinAfterSplitOnce(s: string, sep: char)
    ensures SplitOnce(s, sep).At? ==> var c := SplitOnce(s, sep); s == c.head + [sep] + c.tail && sep !in c.head
  {
    if s != "" && s[0] != sep {
      JoinAfterSplitOnce(s[1..], sep);
      assert s == [s[0]] + s[1..];
    }
  }
}
