/** Stripping and splitting text. */
module Text {

  predicate IsSpace(c: char) {
    c == ' ' || c == '\t' || c == '\n' || c == '\r' || c as int == 11 || c as int == 12
  }

  function StripLeft(s: string): string {
    if s != "" && IsSpace(s[0]) then StripLeft(s[1..]) else s
  }

  function StripRight(s: string): string {
    if s != "" && IsSpace(s[|s| - 1]) then StripRight(s[..|s| - 1]) else s
  }

  /** str.strip() */
  function Strip(s: string): string {
    StripRight(StripLeft(s))
  }

  lemma {:induction false} StrippedEnds(s: string)
    ensures StripLeft(s) != "" ==> !IsSpace(StripLeft(s)[0])
    ensures exists n | 0 <= n <= |s| :: StripLeft(s) == s[n..]
  {
    if s != "" && IsSpace(s[0]) {
      StrippedEnds(s[1..]);
      var n :| 0 <= n <= |s[1..]| && StripLeft(s[1..]) == s[1..][n..];
      assert s[1..][n..] == s[n + 1..];
    } else {
      assert s == s[0..];
    }
  }

  lemma {:induction false} StripRightPrefix(s: string)
    ensures exists n | 0 <= n <= |s| :: StripRight(s) == s[..n]
  {
    if s != "" && IsSpace(s[|s| - 1]) {
      StripRightPrefix(s[..|s| - 1]);
      var n :| 0 <= n <= |s| - 1 && StripRight(s[..|s| - 1]) == s[..|s| - 1][..n];
      assert s[..|s| - 1][..n] == s[..n];
    } else {
      assert s == s[..|s|];
    }
  }

  lemma StripStart(s: string)
    ensures Strip(s) != "" ==> !IsSpace(Strip(s)[0])
  {
    StrippedEnds(s);
    StripRightPrefix(StripLeft(s));
  }

  lemma StripKeeps(s: string)
    requires s != "" && !IsSpace(s[0]) && !IsSpace(s[|s| - 1])
    ensures Strip(s) == s
  {
  }

  // ---------- Splitting ----------

  /** The parts of a text that begins with `c`, from those of the rest. */
  function Extend(c: char, sep: char, parts: seq<string>): seq<string>
    requires parts != []
  {
    if c == sep then [""] + parts else [[c] + parts[0]] + parts[1..]
  }

  lemma ExtendConcat(c: char, sep: char, l: seq<string>, r: seq<string>)
    requires l != []
    ensures Extend(c, sep, l + r) == Extend(c, sep, l) + r
  {
  }

  /** str.split with a one-character separator */
  function Split(s: string, sep: char): (parts: seq<string>)
    ensures parts != []
    ensures forall p | p in parts :: sep !in p
  {
    if s == "" then [""]
    else Extend(s[0], sep, Split(s[1..], sep))
  }

  lemma {:induction false} SplitAt(a: string, b: string, sep: char)
    requires sep !in a
    ensures Split(a + [sep] + b, sep) == [a] + Split(b, sep)
  {
    var s := a + [sep] + b;
    if a == "" {
      assert s[1..] == b;
    } else {
      SplitAt(a[1..], b, sep);
      assert s[1..] == a[1..] + [sep] + b;
      assert a == [a[0]] + a[1..];
    }
  }

  lemma {:induction false} SplitNone(a: string, sep: char)
    requires sep !in a
    ensures Split(a, sep) == [a]
  {
    if a != "" {
      SplitNone(a[1..], sep);
      assert a == [a[0]] + a[1..];
    }
  }

  lemma {:induction false} SplitFirst(s: string, sep: char)
    ensures Split(s, sep)[0] != "" ==> s != "" && s[0] == Split(s, sep)[0][0]
  {
  }

  lemma SplitCons(c: char, s: string, sep: char)
    ensures Split([c] + s, sep) == Extend(c, sep, Split(s, sep))
  {
    assert ([c] + s)[1..] == s;
  }

  /** str.join with a one-character separator */
  function Join(parts: seq<string>, sep: char): string {
    if parts == [] then "" else if |parts| == 1 then parts[0] else parts[0] + [sep] + Join(parts[1..], sep)
  }

  /** Joining the parts gives the text back. */
  lemma {:induction false} SplitJoined(s: string, sep: char)
    ensures Join(Split(s, sep), sep) == s
  {
    if s == "" {
      assert Split(s, sep) == [""];
    } else {
      SplitJoined(s[1..], sep);
      var rest := Split(s[1..], sep);
      hide Split;
      SplitCons(s[0], s[1..], sep);
      assert [s[0]] + s[1..] == s;
      JoinExtend(s[0], sep, rest);
    }
  }

  lemma JoinExtend(c: char, sep: char, parts: seq<string>)
    requires parts != []
    ensures Join(Extend(c, sep, parts), sep) == [c] + Join(parts, sep)
  {
    if c == sep {
      assert ([""] + parts)[1..] == parts;
    } else {
      assert ([[c] + parts[0]] + parts[1..])[1..] == parts[1..];
    }
  }

  /** Splitting at a separator that is there splits both sides. */
  lemma {:induction false} SplitConcat(a: string, b: string, sep: char)
    ensures Split(a + [sep] + b, sep) == Split(a, sep) + Split(b, sep)
  {
    if a == "" {
      assert Split("", sep) == [""];
      hide Split;
      assert a + [sep] + b == [sep] + b;
      SplitCons(sep, b, sep);
    } else {
      hide Split, Extend;
      SplitConcat(a[1..], b, sep);
      SplitCons(a[0], a[1..] + [sep] + b, sep);
      SplitCons(a[0], a[1..], sep);
      assert [a[0]] + (a[1..] + [sep] + b) == a + [sep] + b && [a[0]] + a[1..] == a;
      ExtendConcat(a[0], sep, Split(a[1..], sep), Split(b, sep));
    }
  }
}
