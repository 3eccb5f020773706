/** The string operations the bot uses: Python's `str.capitalize` (restricted
    to ASCII letters) and `str.join`, plus a line splitter that serves as the
    inverse of joining with a separator. */
module Text {

  predicate IsLowerAscii(c: char) { 'a' <= c <= 'z' }

  predicate IsUpperAscii(c: char) { 'A' <= c <= 'Z' }

  function ToUpper(c: char): char {
    if IsLowerAscii(c) then (c as int - 32) as char else c
  }

  function ToLower(c: char): char {
    if IsUpperAscii(c) then (c as int + 32) as char else c
  }

  /** The two characters are the same up to ASCII letter case. */
  predicate SameIgnoringCase(c: char, d: char) {
    ToLower(c) == ToLower(d)
  }

  predicate EqualIgnoringCase(s: string, t: string) {
    |s| == |t| && forall i :: 0 <= i < |s| ==> SameIgnoringCase(s[i], t[i])
  }

  /** The shape `str.capitalize` produces: the first character is not a
      lower-case letter and no later character is an upper-case letter. */
  predicate IsCapitalized(s: string) {
    && (|s| > 0 ==> !IsLowerAscii(s[0]))
    && forall i :: 1 <= i < |s| ==> !IsUpperAscii(s[i])
  }

  /** Python's `s.capitalize()` on ASCII text. */
  function Capitalize(s: string): string {
    if s == [] then [] else [ToUpper(s[0])] + LowerAll(s[1..])
  }

  /** Python's `s.lower()` on ASCII text. */
  function LowerAll(s: string): (r: string)
    ensures |r| == |s|
  {
    if s == [] then [] else [ToLower(s[0])] + LowerAll(s[1..])
  }

  lemma {:induction false} LowerAllAt(s: string, i: int)
    requires 0 <= i < |s|
    ensures LowerAll(s)[i] == ToLower(s[i])
  {
    if i > 0 {
      LowerAllAt(s[1..], i - 1);
    }
  }

  /** Capitalize(s) is capitalised and spells `s` up to letter case; by
      CapitalizeUnique it is the only such string. */
  lemma CapitalizeSpec(s: string)
    ensures IsCapitalized(Capitalize(s))
    ensures EqualIgnoringCase(Capitalize(s), s)
  {
    var r := Capitalize(s);
    forall i | 0 <= i < |s|
      ensures SameIgnoringCase(r[i], s[i])
      ensures i == 0 ==> !IsLowerAscii(r[i])
      ensures i > 0 ==> !IsUpperAscii(r[i])
    {
      CapitalizeAt(s, i);
      CaseChange(s[i]);
    }
  }

  lemma CapitalizeAt(s: string, i: int)
    requires 0 <= i < |s|
    ensures |Capitalize(s)| == |s|
    ensures Capitalize(s)[i] == if i == 0 then ToUpper(s[0]) else ToLower(s[i])
  {
    if i > 0 {
      LowerAllAt(s[1..], i - 1);
    }
  }

  /** Changing the case of a character keeps it the same up to case. */
  lemma CaseChange(c: char)
    ensures SameIgnoringCase(ToUpper(c), c) && !IsLowerAscii(ToUpper(c))
    ensures SameIgnoringCase(ToLower(c), c) && !IsUpperAscii(ToLower(c))
  {
  }

  lemma CharCase(c: char, d: char)
    requires SameIgnoringCase(c, d)
    ensures !IsLowerAscii(c) ==> c == ToUpper(d)
    ensures !IsUpperAscii(c) ==> c == ToLower(d)
  {
  }

  /** Capitalize is characterised by its contract: any capitalised string that
      equals `s` up to case is Capitalize(s). */
  lemma CapitalizeUnique(s: string, t: string)
    requires IsCapitalized(t) && EqualIgnoringCase(t, s)
    ensures t == Capitalize(s)
  {
    var r := Capitalize(s);
    CapitalizeSpec(s);
    forall i | 0 <= i < |t|
      ensures t[i] == r[i]
    {
      CharCase(t[i], s[i]);
    }
  }

  /** Capitalising twice is capitalising once. */
  lemma CapitalizeIdempotent(s: string)
    ensures Capitalize(Capitalize(s)) == Capitalize(s)
  {
    var r := Capitalize(s);
    CapitalizeSpec(s);
    assert EqualIgnoringCase(r, r);
    CapitalizeUnique(r, r);
  }

  /** Capitalize changes only letters, so it adds and removes no newline. */
  lemma CapitalizeKeepsNewlines(s: string)
    ensures '\n' in Capitalize(s) <==> '\n' in s
  {
    var r := Capitalize(s);
    CapitalizeSpec(s);
    if '\n' in r {
      var i :| 0 <= i < |r| && r[i] == '\n';
      assert ToLower(r[i]) == '\n';
      assert s[i] == '\n';
    }
    if '\n' in s {
      var i :| 0 <= i < |s| && s[i] == '\n';
      assert ToLower(s[i]) == '\n';
      assert r[i] == '\n';
    }
  }

  lemma ConcatAssoc(a: string, b: string, c: string)
    ensures a + b + c == a + (b + c)
  {
  }

  /** Python's `sep.join(parts)`. */
  function Join(parts: seq<string>, sep: string): string {
    if |parts| == 0 then ""
    else if |parts| == 1 then parts[0]
    else parts[0] + sep + Join(parts[1..], sep)
  }

  /** Joining two non-empty lists puts one separator between the two joins. */
  lemma {:induction false} JoinAppend(a: seq<string>, b: seq<string>, sep: string)
    requires |a| > 0 && |b| > 0
    ensures Join(a + b, sep) == Join(a, sep) + sep + Join(b, sep)
  {
    if |a| == 1 {
      assert (a + b)[1..] == b;
    } else {
      assert (a + b)[1..] == a[1..] + b;
      JoinAppend(a[1..], b, sep);
    }
  }

  lemma JoinCons(h: string, rest: seq<string>, sep: string)
    requires |rest| > 0
    ensures Join([h] + rest, sep) == h + sep + Join(rest, sep)
  {
    assert ([h] + rest)[1..] == rest;
  }

  /** The pieces of `s` between occurrences of `c` (Python's `s.split(c)`
      for a one-character separator); joining them back gives `s`. */
  function Split(s: string, c: char): (r: seq<string>)
    ensures |r| >= 1
    ensures forall i :: 0 <= i < |r| ==> c !in r[i]
    ensures Join(r, [c]) == s
  {
    if s == [] then [""]
    else
      var rest := Split(s[1..], c);
      if s[0] == c then
        assert [""] + rest == [""] + rest[..1] + rest[1..];
        [""] + rest
      else
        JoinHead(rest, s[0], [c]);
        [[s[0]] + rest[0]] + rest[1..]
  }

  /** Prefixing a character to the first piece prefixes it to the join. */
  lemma JoinHead(parts: seq<string>, x: char, sep: string)
    requires |parts| >= 1
    ensures Join([[x] + parts[0]] + parts[1..], sep) == [x] + Join(parts, sep)
  {
  }

  /** A prefix free of `c` merges into the first piece. */
  lemma {:induction false} SplitPrefix(x: string, rest: string, c: char)
    requires c !in x
    ensures Split(x + rest, c) == [x + Split(rest, c)[0]] + Split(rest, c)[1..]
  {
    if x != [] {
      assert (x + rest)[1..] == x[1..] + rest;
      SplitPrefix(x[1..], rest, c);
      assert [x[0]] + (x[1..] + Split(rest, c)[0]) == x + Split(rest, c)[0];
    } else {
      var r := Split(rest, c);
      assert x + rest == rest && x + r[0] == r[0];
      assert r == [r[0]] + r[1..];
    }
  }

  /** Splitting a join recovers the pieces, provided no piece holds the separator. */
  lemma {:induction false} SplitJoin(parts: seq<string>, c: char)
    requires |parts| >= 1
    requires forall i :: 0 <= i < |parts| ==> c !in parts[i]
    ensures Split(Join(parts, [c]), c) == parts
  {
    if |parts| == 1 {
      SplitPrefix(parts[0], "", c);
      assert parts[0] + "" == parts[0];
    } else {
      var tail := Join(parts[1..], [c]);
      SplitJoin(parts[1..], c);
      assert parts[0] + [c] + tail == parts[0] + ([c] + tail);
      SplitPrefix(parts[0], [c] + tail, c);
      assert ([c] + tail)[1..] == tail;
      assert Split([c] + tail, c) == [""] + parts[1..];
      assert parts[0] + "" == parts[0];
    }
  }
}
