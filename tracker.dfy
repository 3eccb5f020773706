/** The bot's handlers (main.py): choosing a network, submitting an
    address, /status and /stop, over an in-memory model of the Firebase
    `/users` reference and of the per-user conversation data. */
module Tracker {
  import opened Optional
  import opened Text
  import opened Records
  import opened StatusReport

  const SelectFirst: string := "Please select a network first using /track."

  const Stopped: string := "Stopped tracking all contracts."

  /** The fixed replies of /start, /help and /track, which touch no state. */
  const Welcome: string :=
    "Welcome to the Blockchain Tracker Bot! Use /track to monitor transactions. Use /help for other commands."

  const HelpText: string :=
    "/start - Start the bot\n/track - Start tracking a contract address\n/status - View tracked addresses\n/stop - Stop tracking a contract\n/help - Show help message"

  const TrackPrompt: string := "Which network would you like to track?"

  /** The callback data of the two buttons /track offers. */
  const Choices: seq<string> := ["solana", "sui"]

  function SelectedReply(network: string): string {
    "You selected " + Capitalize(network) + ". Please send the contract address you want to track."
  }

  function TrackingReply(address: string, network: string): string {
    "Started tracking contract address: " + address + " on " + Capitalize(network) + "."
  }

  /** `context.user_data.get('network')` is truthy: set, and not the empty string. */
  predicate HasPending(pending: map<UserId, string>, user: UserId) {
    user in pending && pending[user] != ""
  }

  /** `ref.child(str(user_id)).get()`: the user's record, or None. */
  function Read(store: map<UserId, Record>, user: UserId): Option<Record> {
    if user in store then Some(store[user]) else None
  }

  class TrackerBot {
    /** The Firebase reference `/users`: user id to record. */
    var store: map<UserId, Record>
    /** `context.user_data['network']` of each user's conversation. */
    var pending: map<UserId, string>

    /** Every record in the store is non-empty, keyed by distinct non-empty
        network names, each with at least one address. */
    ghost predicate Valid()
      reads this
    {
      forall u :: u in store ==> Stored(store[u])
    }

    constructor ()
      ensures Valid()
      ensures store == map[] && pending == map[]
    {
      store := map[];
      pending := map[];
    }

    /** A button press: the pending network becomes the button's data,
        whatever was pending before; the store is not touched. */
    method SelectNetwork(user: UserId, data: string) returns (reply: string)
      requires Valid()
      modifies this
      ensures Valid()
      ensures pending == old(pending)[user := data]
      ensures store == old(store)
      ensures reply == SelectedReply(data)
    {
      pending := pending[user := data];
      reply := SelectedReply(data);
    }

    /** A text message. Without a pending network nothing changes and the
        user is told to pick one. Otherwise the text, unchecked, is appended
        to the user's list for that network (the record and the list are
        created when missing), the whole record is written back, and the
        pending network stays selected. */
    method SubmitAddress(user: UserId, text: string) returns (reply: string)
      requires Valid()
      modifies this
      ensures Valid()
      ensures pending == old(pending)
      ensures !HasPending(old(pending), user) ==> store == old(store) && reply == SelectFirst
      ensures HasPending(old(pending), user) ==>
        && store == old(store)[user := AppendAddress(Read(old(store), user).GetOr([]), old(pending)[user], text)]
        && reply == TrackingReply(text, old(pending)[user])
    {
      var network := if user in pending then Some(pending[user]) else None;
      if network.None? || network.value == "" {
        reply := SelectFirst;
        return;
      }
      var record := Read(store, user).GetOr([]);
      AppendAddressKeepsStored(record, network.value, text);
      record := AppendAddress(record, network.value, text);
      store := store[user := record];
      reply := TrackingReply(text, network.value);
    }

    /** /status: "not tracking" for a missing or empty record; otherwise the
        header and one block per network, built up network by network. */
    method Status(user: UserId) returns (reply: string)
      ensures reply == StatusReply(Read(store, user))
    {
      var stored := Read(store, user);
      if stored.None? || stored.value == [] {
        reply := NotTracking;
        return;
      }
      var record := stored.value;
      var message := HeaderLine + "\n";
      assert record[..0] == [] && message + Body([]) == message;
      for i := 0 to |record|
        invariant message == HeaderLine + "\n" + Body(record[..i])
      {
        var e := record[i];
        ghost var before := message;
        message := message + ("\n" + NameLine(e.network) + "\n");
        message := message + (Join(e.addresses, "\n") + "\n");
        RenderStep(HeaderLine + "\n", record, i, before);
      }
      assert record[..|record|] == record;
      assert StatusReply(Read(store, user)) == StatusText(record);
      reply := message;
    }

    /** /stop: the user's whole record is deleted, whether or not there was
        one; other users and the pending network are untouched. */
    method Stop(user: UserId) returns (reply: string)
      requires Valid()
      modifies this
      ensures Valid()
      ensures store == old(store) - {user}
      ensures pending == old(pending)
      ensures reply == Stopped
    {
      store := store - {user};
      reply := Stopped;
    }
  }

  /** Appending a block's two pieces, as the /status loop does, extends
      the rendered body by one entry. */
  lemma RenderStep(prefix: string, r: Record, i: int, before: string)
    requires 0 <= i < |r|
    requires before == prefix + Body(r[..i])
    ensures before + ("\n" + NameLine(r[i].network) + "\n") + (Join(r[i].addresses, "\n") + "\n")
         == prefix + Body(r[..i + 1])
  {
    var e := r[i];
    assert r[..i + 1] == r[..i] + [e];
    BodySnoc(r[..i], e);
    ConcatAssoc(before, "\n" + NameLine(e.network) + "\n", Join(e.addresses, "\n") + "\n");
    ConcatAssoc(prefix, Body(r[..i]), Block(e));
  }

  /** The /status reply is "not tracking" exactly when the user has no
      record or an empty one; a stored record is never shown that way. */
  lemma NotTrackingExactlyWhenEmpty(stored: Option<Record>)
    ensures StatusReply(stored) == NotTracking <==> stored.GetOr([]) == []
  {
    if stored.Some? && stored.value != [] {
      assert StatusText(stored.value)[0] == 'C';
    }
  }

  /** Capitalising a literal name, one character at a time. */
  lemma CapitalizeName(s: string, t: string)
    requires |s| == |t|
    requires forall i :: 0 <= i < |s| ==> t[i] == if i == 0 then ToUpper(s[0]) else ToLower(s[i])
    ensures Capitalize(s) == t
  {
    forall i | 0 <= i < |s|
      ensures Capitalize(s)[i] == t[i]
    {
      CapitalizeAt(s, i);
    }
  }

  /** The block of a network with a single address. */
  lemma BlockParts(e: Entry, name: string, address: string)
    requires NameLine(e.network) == name && e.addresses == [address]
    ensures Block(e) == "\n" + name + "\n" + (address + "\n")
  {
  }

  lemma SolanaBlock()
    ensures Block(Entry("solana", ["ABC123"])) == "\nSolana:\nABC123\n"
  {
    CapitalizeName("solana", "Solana");
    BlockParts(Entry("solana", ["ABC123"]), "Solana:", "ABC123");
  }

  lemma SuiBlock()
    ensures Block(Entry("sui", ["XYZ789"])) == "\nSui:\nXYZ789\n"
  {
    CapitalizeName("sui", "Sui");
    BlockParts(Entry("sui", ["XYZ789"]), "Sui:", "XYZ789");
  }

  lemma BodyOne(a: Entry)
    ensures Body([a]) == Block(a)
  {
    assert [a][1..] == [];
  }

  lemma BodyTwo(a: Entry, b: Entry)
    ensures Body([a, b]) == Block(a) + Block(b)
  {
    assert [a, b][1..] == [b];
    BodyOne(b);
  }

  /** The text of a one-entry and of a two-entry record, from their blocks. */
  lemma OneBlockText(a: Entry, ba: string)
    requires Block(a) == ba
    ensures StatusText([a]) == HeaderLine + "\n" + ba
  {
    BodyOne(a);
  }

  lemma TwoBlockText(a: Entry, b: Entry, ba: string, bb: string)
    requires Block(a) == ba && Block(b) == bb
    ensures StatusText([a, b]) == HeaderLine + "\n" + (ba + bb)
  {
    BodyTwo(a, b);
  }

  /** The /status replies after tracking `solana`/`ABC123`, then `sui`/`XYZ789`. */
  lemma SolanaText()
    ensures StatusText([Entry("solana", ["ABC123"])])
         == HeaderLine + "\n" + "\nSolana:\nABC123\n"
  {
    SolanaBlock();
    OneBlockText(Entry("solana", ["ABC123"]), "\nSolana:\nABC123\n");
  }

  lemma SolanaSuiText()
    ensures StatusText([Entry("solana", ["ABC123"]), Entry("sui", ["XYZ789"])])
         == HeaderLine + "\n" + "\nSolana:\nABC123\n" + "\nSui:\nXYZ789\n"
  {
    SolanaBlock();
    SuiBlock();
    TwoBlockText(Entry("solana", ["ABC123"]), Entry("sui", ["XYZ789"]),
                 "\nSolana:\nABC123\n", "\nSui:\nXYZ789\n");
    ConcatAssoc(HeaderLine + "\n", "\nSolana:\nABC123\n", "\nSui:\nXYZ789\n");
  }

  /** A first submission creates a one-entry record. */
  lemma FirstSubmission(n: string, a: string)
    ensures AppendAddress([], n, a) == [Entry(n, [a])]
  {
    AppendNew([], n, a);
    assert [] + [Entry(n, [a])] == [Entry(n, [a])];
  }

  /** A submission to a second network adds its entry after the first. */
  lemma SecondSubmission(e1: Entry, n2: string, a2: string)
    requires e1.network != n2
    ensures AppendAddress([e1], n2, a2) == [e1, Entry(n2, [a2])]
  {
    assert Networks([e1]) == [e1.network];
    AppendNew([e1], n2, a2);
    assert [e1] + [Entry(n2, [a2])] == [e1, Entry(n2, [a2])];
  }

  /** A user picks `n` and sends `a`: /status then shows exactly one block,
      `n` capitalised with `a` under it (SolanaText for "solana", "ABC123"). */
  method TrackOneNetwork(user: UserId, n: string, a: string) returns (reply: string)
    requires n != ""
    ensures reply == StatusText([Entry(n, [a])])
  {
    FirstSubmission(n, a);
    var bot := new TrackerBot();
    var r := bot.SelectNetwork(user, n);
    r := bot.SubmitAddress(user, a);
    assert Read(bot.store, user) == Some([Entry(n, [a])]);
    reply := bot.Status(user);
  }

  /** The same user then picks a second network `n2` and sends `a2`: the
      record keeps both, in the order they were first chosen (SolanaSuiText
      for "sui", "XYZ789"). */
  method TrackSecondNetwork(user: UserId, n1: string, a1: string, n2: string, a2: string)
    returns (reply: string)
    requires n1 != "" && n2 != "" && n1 != n2
    ensures reply == StatusText([Entry(n1, [a1]), Entry(n2, [a2])])
  {
    FirstSubmission(n1, a1);
    SecondSubmission(Entry(n1, [a1]), n2, a2);
    var bot := new TrackerBot();
    var r := bot.SelectNetwork(user, n1);
    r := bot.SubmitAddress(user, a1);
    assert Read(bot.store, user) == Some([Entry(n1, [a1])]);
    r := bot.SelectNetwork(user, n2);
    r := bot.SubmitAddress(user, a2);
    assert Read(bot.store, user) == Some([Entry(n1, [a1]), Entry(n2, [a2])]);
    reply := bot.Status(user);
  }

  /** The pending network survives a submission, so two submissions in a
      row both go to it: both texts are appended to its list, in order and
      even when they are the same. */
  method SubmitTwice(bot: TrackerBot, user: UserId, a: string, b: string)
    returns (first: string, second: string)
    requires bot.Valid() && HasPending(bot.pending, user)
    modifies bot
    ensures bot.Valid() && bot.pending == old(bot.pending)
    ensures var n, before := old(bot.pending)[user], Read(old(bot.store), user).GetOr([]);
      && bot.store == old(bot.store)[user := AppendAll(before, n, [a, b])]
      && Lookup(bot.store[user], n) == Some(Lookup(before, n).GetOr([]) + [a, b])
  {
    ghost var n, before := bot.pending[user], Read(bot.store, user).GetOr([]);
    first := bot.SubmitAddress(user, a);
    ghost var r1 := AppendAddress(before, n, a);
    assert Read(bot.store, user).GetOr([]) == r1;
    second := bot.SubmitAddress(user, b);
    assert [a, b][1..] == [b] && [b][1..] == [];
    assert AppendAll(before, n, [a, b]) == AppendAll(r1, n, [b]);
    assert AppendAll(r1, n, [b]) == AppendAll(AppendAddress(r1, n, b), n, []);
    AppendAllLookup(before, n, [a, b]);
  }

  /** /stop is idempotent: a second /stop changes nothing more and gives
      the same reply. */
  method StopTwice(bot: TrackerBot, user: UserId) returns (first: string, second: string)
    requires bot.Valid()
    modifies bot
    ensures bot.store == old(bot.store) - {user} && bot.pending == old(bot.pending)
    ensures first == second == Stopped
  {
    first := bot.Stop(user);
    ghost var afterFirst := bot.store;
    second := bot.Stop(user);
    assert bot.store == afterFirst;
  }

  /** The store invariant keeps the /status promise: a user who has a
      record, which only a submission creates, is never told they track
      nothing. */
  lemma SubmittedUserIsTracking(bot: TrackerBot, user: UserId)
    requires bot.Valid() && user in bot.store
    ensures StatusReply(Read(bot.store, user)) != NotTracking
  {
    NotTrackingExactlyWhenEmpty(Read(bot.store, user));
  }

  /** Whatever the bot holds, /stop followed by /status reports that the
      user tracks nothing. */
  method StopThenStatus(bot: TrackerBot, user: UserId) returns (reply: string)
    requires bot.Valid()
    modifies bot
    ensures reply == NotTracking
  {
    var r := bot.Stop(user);
    reply := bot.Status(user);
  }
}
