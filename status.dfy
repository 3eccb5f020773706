/** The text of the reply to /status, and a reader that recovers the
    record (with capitalised network names) from that text. */
module StatusReport {
  import opened Optional
  import opened Text
  import opened Records

  const HeaderLine: string := "Currently tracked contracts:"

  const NotTracking: string := "You are not tracking any contracts."

  /** One network's part of the reply: a blank line, the capitalised name
      and a colon, then the addresses joined by newlines and a final newline. */
  function Block(e: Entry): string {
    ("\n" + NameLine(e.network) + "\n") + (Join(e.addresses, "\n") + "\n")
  }

  /** The line that names a network in the reply: `Solana:`. */
  function NameLine(network: string): string {
    Capitalize(network) + ":"
  }

  /** The blocks of all networks, in record order. */
  function Body(r: Record): string {
    if r == [] then "" else Block(r[0]) + Body(r[1..])
  }

  function StatusText(r: Record): string {
    HeaderLine + "\n" + Body(r)
  }

  /** The reply to /status given what the store holds for the user: a
      missing or empty record reads as "not tracking". */
  function StatusReply(stored: Option<Record>): string {
    if stored.None? || stored.value == [] then NotTracking else StatusText(stored.value)
  }

  /** Adding an entry at the end of the record adds its block at the end of
      the body (what the rendering loop relies on). */
  lemma {:induction false} BodySnoc(r: Record, e: Entry)
    ensures Body(r + [e]) == Body(r) + Block(e)
  {
    if r == [] {
      assert [] + [e] == [e];
    } else {
      assert (r + [e])[1..] == r[1..] + [e];
      BodySnoc(r[1..], e);
    }
  }

  // ---- Reading a reply back ----

  /** The record as the reply shows it: each network name capitalised. */
  function Shown(r: Record): Record {
    if r == [] then [] else [Entry(Capitalize(r[0].network), r[0].addresses)] + Shown(r[1..])
  }

  /** The reply can be read back only if every network has addresses and no
      name or address spans a line, and no address is empty. */
  predicate Printable(r: Record) {
    && (forall i :: 0 <= i < |r| ==> '\n' !in r[i].network && r[i].addresses != [])
    && (forall i, k :: 0 <= i < |r| && 0 <= k < |r[i].addresses| ==>
          r[i].addresses[k] != "" && '\n' !in r[i].addresses[k])
  }

  lemma PrintableTail(r: Record)
    requires Printable(r) && r != []
    ensures Printable(r[1..])
  {
    forall i, k | 0 <= i < |r[1..]| && 0 <= k < |r[1..][i].addresses|
      ensures r[1..][i].addresses[k] != "" && '\n' !in r[1..][i].addresses[k]
    {
      assert r[1..][i] == r[i + 1];
    }
  }

  /** A name line ends in the colon, and what comes before it is the capitalised name. */
  lemma NameLineParts(network: string)
    ensures IsNameLine(NameLine(network))
    ensures NameLine(network)[..|NameLine(network)| - 1] == Capitalize(network)
  {
  }

  /** How many lines there are before the first blank one. */
  function CountAddressLines(ls: seq<string>): (k: nat)
    ensures k <= |ls|
    ensures forall i :: 0 <= i < k ==> ls[i] != ""
    ensures k < |ls| ==> ls[k] == ""
  {
    if ls == [] || ls[0] == "" then 0 else 1 + CountAddressLines(ls[1..])
  }

  predicate IsNameLine(l: string) {
    |l| > 0 && l[|l| - 1] == ':'
  }

  /** Reads groups of lines, each a blank line, a name line ending in ':'
      and one or more address lines. */
  function ParseGroups(ls: seq<string>): Option<Record>
    decreases |ls|
  {
    if ls == [] then Some([])
    else if |ls| < 2 || ls[0] != "" || !IsNameLine(ls[1]) then None
    else
      var k := CountAddressLines(ls[2..]);
      if k == 0 then None
      else
        match ParseGroups(ls[2 + k..])
        case None => None
        case Some(rest) => Some([Entry(ls[1][..|ls[1]| - 1], ls[2..2 + k])] + rest)
  }

  /** Reads a /status reply back into the record it shows; the
      "not tracking" reply reads as the empty record. */
  function ParseStatus(text: string): Option<Record> {
    if text == NotTracking then Some([])
    else
      var lines := Split(text, '\n');
      if |lines| >= 2 && lines[0] == HeaderLine && lines[|lines| - 1] == "" then
        ParseGroups(lines[1..|lines| - 1])
      else None
  }

  /** The body of the reply, line by line. */
  function GroupLines(r: Record): seq<string> {
    if r == [] then []
    else ["", NameLine(r[0].network)] + r[0].addresses + GroupLines(r[1..])
  }

  /** One group of lines joined, followed by more lines. */
  lemma GroupJoin(name: string, addrs: seq<string>, rest: seq<string>)
    requires |addrs| > 0 && |rest| > 0
    ensures Join(["", name] + addrs + rest, "\n")
         == "\n" + name + "\n" + Join(addrs, "\n") + "\n" + Join(rest, "\n")
  {
    JoinAppend(["", name] + addrs, rest, "\n");
    JoinAppend(["", name], addrs, "\n");
    assert Join(["", name], "\n") == "" + "\n" + name;
    assert "" + "\n" + name == "\n" + name;
  }

  lemma {:induction false} BodyLines(r: Record)
    requires forall i :: 0 <= i < |r| ==> r[i].addresses != []
    ensures Join(GroupLines(r) + [""], "\n") == Body(r)
  {
    if r == [] {
      assert GroupLines(r) + [""] == [""];
    } else {
      var name := NameLine(r[0].network);
      var addrs := r[0].addresses;
      var rest := GroupLines(r[1..]) + [""];
      BodyLines(r[1..]);
      assert GroupLines(r) + [""] == ["", name] + addrs + rest;
      GroupJoin(name, addrs, rest);
    }
  }

  /** The reply is its lines joined by newlines: the header, the groups of
      GroupLines, and an empty last line from the final newline. */
  lemma StatusLines(r: Record)
    requires forall i :: 0 <= i < |r| ==> r[i].addresses != []
    ensures StatusText(r) == Join([HeaderLine] + GroupLines(r) + [""], "\n")
  {
    HeadedLines(HeaderLine, r);
  }

  lemma HeadedLines(h: string, r: Record)
    requires forall i :: 0 <= i < |r| ==> r[i].addresses != []
    ensures h + "\n" + Body(r) == Join([h] + GroupLines(r) + [""], "\n")
  {
    BodyLines(r);
    HeadedJoin(h, GroupLines(r), Body(r));
  }

  lemma HeadedJoin(h: string, g: seq<string>, b: string)
    requires Join(g + [""], "\n") == b
    ensures h + "\n" + b == Join([h] + g + [""], "\n")
  {
    JoinCons(h, g + [""], "\n");
    assert [h] + g + [""] == [h] + (g + [""]);
  }

  /** No line holds a newline. */
  predicate SingleLines(ls: seq<string>) {
    forall j :: 0 <= j < |ls| ==> '\n' !in ls[j]
  }

  lemma SingleLinesAppend(a: seq<string>, b: seq<string>)
    requires SingleLines(a) && SingleLines(b)
    ensures SingleLines(a + b)
  {
    forall j | 0 <= j < |a + b|
      ensures '\n' !in (a + b)[j]
    {
      if j >= |a| {
        assert (a + b)[j] == b[j - |a|];
      }
    }
  }

  lemma {:induction false} GroupLinesSingleLines(r: Record)
    requires Printable(r)
    ensures SingleLines(GroupLines(r))
  {
    if r != [] {
      var name := NameLine(r[0].network);
      var addrs := r[0].addresses;
      CapitalizeKeepsNewlines(r[0].network);
      assert SingleLines(["", name]);
      assert SingleLines(addrs) by {
        forall k | 0 <= k < |addrs|
          ensures '\n' !in addrs[k]
        {
          assert '\n' !in r[0].addresses[k];
        }
      }
      PrintableTail(r);
      GroupLinesSingleLines(r[1..]);
      SingleLinesAppend(["", name], addrs);
      SingleLinesAppend(["", name] + addrs, GroupLines(r[1..]));
    }
  }

  /** Non-empty address lines stop at the blank line that opens the next group. */
  lemma {:induction false} CountAddressLinesPrefix(addrs: seq<string>, tail: seq<string>)
    requires forall k :: 0 <= k < |addrs| ==> addrs[k] != ""
    requires tail == [] || tail[0] == ""
    ensures CountAddressLines(addrs + tail) == |addrs|
  {
    if addrs != [] {
      assert (addrs + tail)[1..] == addrs[1..] + tail;
      CountAddressLinesPrefix(addrs[1..], tail);
    } else {
      assert addrs + tail == tail;
    }
  }

  lemma {:induction false} ParseGroupLines(r: Record)
    requires Printable(r)
    ensures ParseGroups(GroupLines(r)) == Some(Shown(r))
  {
    if r != [] {
      var addrs := r[0].addresses;
      assert forall k :: 0 <= k < |addrs| ==> addrs[k] != "" by {
        forall k | 0 <= k < |addrs| ensures addrs[k] != "" {
          assert r[0].addresses[k] != "";
        }
      }
      PrintableTail(r);
      ParseGroupLines(r[1..]);
      NameLineParts(r[0].network);
      ParseOneGroup(NameLine(r[0].network), addrs, GroupLines(r[1..]), Shown(r[1..]));
    }
  }

  /** A blank line, a name line and non-empty address lines, followed by
      lines that start a new group (or by nothing), read as one entry. */
  lemma ParseOneGroup(name: string, addrs: seq<string>, tail: seq<string>, rest: Record)
    requires IsNameLine(name) && addrs != []
    requires forall k :: 0 <= k < |addrs| ==> addrs[k] != ""
    requires tail == [] || tail[0] == ""
    requires ParseGroups(tail) == Some(rest)
    ensures ParseGroups(["", name] + addrs + tail) == Some([Entry(name[..|name| - 1], addrs)] + rest)
  {
    var ls := ["", name] + addrs + tail;
    assert ls[2..] == addrs + tail;
    CountAddressLinesPrefix(addrs, tail);
    assert ls[2 + |addrs|..] == tail;
    assert ls[2..2 + |addrs|] == addrs;
  }

  /** Reading the /status text of a printable record gives back the record
      with capitalised names: every network in record order, every address
      in stored order, nothing added or dropped. */
  lemma StatusRoundTrip(r: Record)
    requires Printable(r)
    ensures ParseStatus(StatusText(r)) == Some(Shown(r))
  {
    SplitStatus(r);
    StatusTextStart(r);
    ReadLines(StatusText(r), GroupLines(r));
    ParseGroupLines(r);
  }

  lemma StatusTextStart(r: Record)
    ensures |StatusText(r)| > 0 && StatusText(r)[0] == 'C'
  {
    assert StatusText(r)[0] == HeaderLine[0];
  }

  /** The /status text of a printable record splits into its lines. */
  lemma SplitStatus(r: Record)
    requires Printable(r)
    ensures Split(StatusText(r), '\n') == [HeaderLine] + GroupLines(r) + [""]
  {
    StatusLines(r);
    assert '\n' !in HeaderLine;
    StatusLinesSingle(HeaderLine, r);
    SplitLines(StatusText(r), [HeaderLine] + GroupLines(r) + [""]);
  }

  lemma StatusLinesSingle(h: string, r: Record)
    requires Printable(r) && '\n' !in h
    ensures SingleLines([h] + GroupLines(r) + [""])
  {
    GroupLinesSingleLines(r);
    SingleLinesAppend([h], GroupLines(r));
    SingleLinesAppend([h] + GroupLines(r), [""]);
  }

  lemma SplitLines(text: string, lines: seq<string>)
    requires |lines| >= 1 && SingleLines(lines)
    requires text == Join(lines, "\n")
    ensures Split(text, '\n') == lines
  {
    assert "\n" == ['\n'];
    SplitJoin(lines, '\n');
  }

  /** A text that differs from the "not tracking" reply and splits into the
      header, some lines and a final empty line is read from those lines. */
  lemma ReadLines(text: string, g: seq<string>)
    requires Split(text, '\n') == [HeaderLine] + g + [""]
    requires |text| > 0 && text[0] == 'C'
    ensures ParseStatus(text) == ParseGroups(g)
  {
    assert NotTracking[0] == 'Y';
    var lines := [HeaderLine] + g + [""];
    assert lines[1..|lines| - 1] == g;
  }

  /** Whatever the store holds for a user, the /status reply reads back as
      that record (an absent record as the empty one). */
  lemma StatusReplyRoundTrip(stored: Option<Record>)
    requires stored.Some? ==> Printable(stored.value)
    ensures ParseStatus(StatusReply(stored)) == Some(Shown(stored.GetOr([])))
  {
    if stored.Some? && stored.value != [] {
      StatusRoundTrip(stored.value);
    }
  }
}
