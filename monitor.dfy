/**
 * Message intake (src/core/monitor.py): the rolling deduplication window
 * `MessageDeduplicator` and the per-message rules of
 * `WeChatClient.get_recent_messages` (conversion to `RawMessage`, the
 * duplicate check, the monitored-group filter). The UI client itself is
 * replaced by the batch it returned, `RawData`.
 */
module Monitor {
  import opened Wrappers
  import opened Strings
  import opened DateTimes
  import opened Types

  /** The text `_generate_hash` digests: ISO timestamp, sender and content with no separator. */
  function HashInput(timestamp: DateTime, sender: string, content: string): string
  {
    IsoFormat(timestamp) + sender + content
  }

  /**
   * Without a separator, any two (sender, content) pairs that concatenate to
   * the same text at the same time hash to the same key, whatever the digest.
   */
  lemma SplitPointIsInvisible(timestamp: DateTime, digest: string -> string,
                              sender1: string, content1: string, sender2: string, content2: string)
    requires sender1 + content1 == sender2 + content2
    ensures HashInput(timestamp, sender1, content1) == HashInput(timestamp, sender2, content2)
    ensures digest(HashInput(timestamp, sender1, content1)) == digest(HashInput(timestamp, sender2, content2))
  {
    var iso := IsoFormat(timestamp);
    assert iso + sender1 + content1 == iso + (sender1 + content1);
    assert iso + sender2 + content2 == iso + (sender2 + content2);
  }

  /** Two different messages that collide: sender "ab" with content "c", and sender "a" with content "bc". */
  lemma DifferentSendersCollide(timestamp: DateTime, digest: string -> string)
    ensures ("ab", "c") != ("a", "bc")
    ensures digest(HashInput(timestamp, "ab", "c")) == digest(HashInput(timestamp, "a", "bc"))
  {
    assert "ab" + "c" == "a" + "bc";
    SplitPointIsInvisible(timestamp, digest, "ab", "c", "a", "bc");
  }

  /** The last `n` elements of `s`, or all of `s` when it is shorter. */
  function Last<T>(s: seq<T>, n: nat): (r: seq<T>)
    ensures |r| == if |s| <= n then |s| else n
    ensures r == s[|s| - |r|..]
  {
    if |s| <= n then s else s[|s| - n..]
  }

  /** `append` on a `deque(maxlen=maxlen)`: the key goes to the back and the front is dropped beyond capacity. */
  function BoundedAppend<K(==)>(window: seq<K>, key: K, maxlen: nat): (r: seq<K>)
    ensures |window| <= maxlen ==> |r| <= maxlen
    ensures |window| < maxlen ==> r == window + [key]
    ensures 0 < maxlen == |window| ==> r == window[1..] + [key]
    ensures maxlen == 0 ==> r == []
    ensures maxlen > 0 ==> r != [] && r[|r| - 1] == key
  {
    Last(window + [key], maxlen)
  }

  /** The window after `is_duplicate` with `key`: unchanged for a duplicate, extended otherwise. */
  function Observe<K(==)>(window: seq<K>, key: K, maxlen: nat): seq<K>
  {
    if key in window then window else BoundedAppend(window, key, maxlen)
  }

  /** Calling `is_duplicate` on an unseen key records it, so an immediate second call reports a duplicate. */
  lemma UnseenThenDuplicate<K>(window: seq<K>, key: K, maxlen: nat)
    requires key !in window && 0 < maxlen && |window| <= maxlen
    ensures key in Observe(window, key, maxlen)
    ensures |Observe(window, key, maxlen)| <= maxlen
    ensures Observe(Observe(window, key, maxlen), key, maxlen) == Observe(window, key, maxlen)
  {
  }

  /** The window after appending `keys` one by one. */
  function AppendAll<K(==)>(window: seq<K>, keys: seq<K>, maxlen: nat): seq<K>
    decreases |keys|
  {
    if keys == [] then window
    else BoundedAppend(AppendAll(window, keys[..|keys| - 1], maxlen), keys[|keys| - 1], maxlen)
  }

  /** The window after `is_duplicate` on `keys` one by one. */
  function ObserveAll<K(==)>(window: seq<K>, keys: seq<K>, maxlen: nat): seq<K>
    decreases |keys|
  {
    if keys == [] then window
    else Observe(ObserveAll(window, keys[..|keys| - 1], maxlen), keys[|keys| - 1], maxlen)
  }

  lemma LastOfLast<T>(t: seq<T>, x: T, n: nat)
    ensures Last(Last(t, n) + [x], n) == Last(t + [x], n)
  {
    var l := Last(t, n);
    if |t| > n && n > 0 {
      assert l + [x] == (t + [x])[|t| - n..];
    }
  }

  /** A bounded window holds exactly the newest `maxlen` of everything appended to it so far. */
  lemma {:induction false} AppendAllKeepsNewest<K>(window: seq<K>, keys: seq<K>, maxlen: nat)
    requires |window| <= maxlen
    ensures AppendAll(window, keys, maxlen) == Last(window + keys, maxlen)
    decreases |keys|
  {
    if keys == [] {
      assert window + keys == window;
    } else {
      var init, k := keys[..|keys| - 1], keys[|keys| - 1];
      AppendAllKeepsNewest(window, init, maxlen);
      SnocSlice(window, keys, |keys| - 1);
      assert keys[..|keys|] == keys;
      NewestStep(AppendAll(window, init, maxlen), window + init, k, maxlen, window + keys);
    }
  }

  lemma NewestStep<K>(prev: seq<K>, t: seq<K>, k: K, maxlen: nat, u: seq<K>)
    requires prev == Last(t, maxlen) && u == t + [k]
    ensures BoundedAppend(prev, k, maxlen) == Last(u, maxlen)
  {
    LastOfLast(t, k, maxlen);
  }

  /** Once `maxlen` further keys other than `key` have been appended, `key` has left the window. */
  lemma EvictedAfterMaxlenAppends<K>(window: seq<K>, keys: seq<K>, maxlen: nat, key: K)
    requires |window| <= maxlen <= |keys|
    requires key !in keys
    ensures key !in AppendAll(window, keys, maxlen)
  {
    AppendAllKeepsNewest(window, keys, maxlen);
    LastWithinTail(window, keys, maxlen);
    if key in keys[|keys| - maxlen..] {
      assert false;
    }
  }

  lemma LastWithinTail<T>(window: seq<T>, keys: seq<T>, n: nat)
    requires n <= |keys|
    ensures Last(window + keys, n) == keys[|keys| - n..]
  {
    var t := window + keys;
    assert Last(t, n) == t[|t| - n..];
    assert t[|window|..] == keys;
    assert t[|t| - n..] == t[|window|..][|keys| - n..];
  }

  lemma SnocSlice<T>(a: seq<T>, b: seq<T>, j: nat)
    requires j < |b|
    ensures a + b[..j] + [b[j]] == a + b[..j + 1]
  {
    assert b[..j + 1] == b[..j] + [b[j]];
  }

  /** Every key in the window was in the starting window or among the appended keys. */
  lemma {:induction false} AppendAllFrom<K>(window: seq<K>, keys: seq<K>, maxlen: nat, x: K)
    requires x in AppendAll(window, keys, maxlen)
    ensures x in window || x in keys
    decreases |keys|
  {
    if keys != [] {
      var init := keys[..|keys| - 1];
      var prev := AppendAll(window, init, maxlen);
      if x != keys[|keys| - 1] {
        var r := Last(prev + [keys[|keys| - 1]], maxlen);
        var i :| 0 <= i < |r| && r[i] == x;
        assert (prev + [keys[|keys| - 1]])[|prev| + 1 - |r| + i] == x;
        assert x in prev;
        AppendAllFrom(window, init, maxlen, x);
      }
    }
  }

  /** Keys that are new when observed (not in the window, not repeated) are all appended. */
  predicate AllFresh<K(==)>(window: seq<K>, keys: seq<K>)
  {
    forall i :: 0 <= i < |keys| ==> keys[i] !in window && keys[i] !in keys[..i]
  }

  lemma {:induction false} FreshObservationsAppend<K>(window: seq<K>, keys: seq<K>, maxlen: nat)
    requires AllFresh(window, keys)
    ensures ObserveAll(window, keys, maxlen) == AppendAll(window, keys, maxlen)
    decreases |keys|
  {
    if keys != [] {
      var init, k := keys[..|keys| - 1], keys[|keys| - 1];
      assert AllFresh(window, init) by {
        forall i | 0 <= i < |init| ensures init[i] !in window && init[i] !in init[..i] {
          assert init[..i] == keys[..i];
        }
      }
      FreshObservationsAppend(window, init, maxlen);
      assert k !in window && k !in init by { assert keys[..|keys| - 1] == init; }
      if k in AppendAll(window, init, maxlen) {
        AppendAllFrom(window, init, maxlen, k);
      }
    }
  }

  /**
   * A key seen once is reported as new again after `maxlen` distinct new keys
   * have been observed after it.
   */
  lemma ForgottenAfterMaxlenNewKeys<K>(window: seq<K>, keys: seq<K>, maxlen: nat, key: K)
    requires |window| <= maxlen <= |keys|
    requires AllFresh(window, keys) && key !in keys
    ensures key !in ObserveAll(window, keys, maxlen)
    ensures Observe(ObserveAll(window, keys, maxlen), key, maxlen)
            == BoundedAppend(ObserveAll(window, keys, maxlen), key, maxlen)
  {
    FreshObservationsAppend(window, keys, maxlen);
    EvictedAfterMaxlenAppends(window, keys, maxlen, key);
  }

  /** `MessageDeduplicator`: a FIFO window of message keys bounded by `maxlen`. */
  class Deduplicator {
    var seenHashes: seq<string>
    const maxlen: nat
    /** The SHA-256 hex digest, left uninterpreted. */
    const digest: string -> string

    ghost predicate Valid()
      reads this
    {
      |seenHashes| <= maxlen
    }

    constructor (maxlen: nat, digest: string -> string)
      ensures Valid()
      ensures seenHashes == [] && this.maxlen == maxlen && this.digest == digest
    {
      seenHashes := [];
      this.maxlen := maxlen;
      this.digest := digest;
    }

    /** `_generate_hash` */
    function GenerateHash(timestamp: DateTime, sender: string, content: string): string
    {
      digest(HashInput(timestamp, sender, content))
    }

    /** `is_duplicate`: true exactly when the key is in the window; otherwise the key is recorded. */
    method IsDuplicate(timestamp: DateTime, sender: string, content: string) returns (duplicate: bool)
      requires Valid()
      modifies this
      ensures Valid()
      ensures duplicate == (GenerateHash(timestamp, sender, content) in old(seenHashes))
      ensures seenHashes == Observe(old(seenHashes), GenerateHash(timestamp, sender, content), maxlen)
      ensures duplicate ==> seenHashes == old(seenHashes)
    {
      var msgHash := GenerateHash(timestamp, sender, content);
      if msgHash in seenHashes {
        return true;
      } else {
        seenHashes := BoundedAppend(seenHashes, msgHash, maxlen);
        return false;
      }
    }

    /** `add_message`: appends even a key that is already present, and returns it. */
    method AddMessage(timestamp: DateTime, sender: string, content: string) returns (msgHash: string)
      requires Valid()
      modifies this
      ensures Valid()
      ensures msgHash == GenerateHash(timestamp, sender, content)
      ensures seenHashes == BoundedAppend(old(seenHashes), msgHash, maxlen)
    {
      msgHash := GenerateHash(timestamp, sender, content);
      seenHashes := BoundedAppend(seenHashes, msgHash, maxlen);
    }
  }

  /**
   * One message object from the UI client as `getattr` sees it: `content` and
   * `sender` are `None` when the attribute is missing, `time` is `None` when it
   * is missing or not a `datetime`; `clock` is the `datetime.now()` reading used
   * in that case.
   */
  datatype UiMessage = UiMessage(content: Option<string>, sender: Option<string>,
                                 time: Option<DateTime>, clock: DateTime)

  /** A value of the dictionary `GetNextNewMessage` returns; only lists are read. */
  datatype ChatValue = MessageList(messages: seq<UiMessage>) | NotAList

  /** The result of `GetNextNewMessage`: a dictionary (in iteration order) or anything else. */
  datatype RawData = Chats(chats: seq<(string, ChatValue)>) | NotADict

  datatype Entry = Entry(chatName: string, message: UiMessage)

  function EntriesOf(chat: (string, ChatValue)): (es: seq<Entry>)
  {
    match chat.1
    case NotAList => []
    case MessageList(ms) => seq(|ms|, k requires 0 <= k < |ms| => Entry(chat.0, ms[k]))
  }

  /** The messages of a batch in the order the two nested loops visit them. */
  function Flatten(chats: seq<(string, ChatValue)>): seq<Entry>
    decreases |chats|
  {
    if chats == [] then [] else Flatten(chats[..|chats| - 1]) + EntriesOf(chats[|chats| - 1])
  }

  lemma FlattenSnoc(chats: seq<(string, ChatValue)>, i: nat)
    requires i < |chats|
    ensures Flatten(chats[..i + 1]) == Flatten(chats[..i]) + EntriesOf(chats[i])
  {
    assert chats[..i + 1][..i] == chats[..i];
  }

  function BatchEntries(raw: RawData): seq<Entry>
  {
    if raw.Chats? then Flatten(raw.chats) else []
  }

  /** `any(g.lower() == "all" for g in monitor_groups)` */
  predicate MonitorAll(groups: seq<string>)
  {
    exists g :: g in groups && Lower(g) == "all"
  }

  predicate PassesGroupFilter(groups: seq<string>, room: Option<string>)
  {
    MonitorAll(groups) || (room.Some? && room.value in groups)
  }

  /** The `RawMessage` built for one entry. */
  function Convert(digest: string -> string, e: Entry): (m: RawMessage)
    ensures m.id == digest(HashInput(m.timestamp, m.sender, m.content))
    ensures m.room.None? <==> e.chatName == m.sender
    ensures m.room.Some? ==> m.room.value == e.chatName
    ensures m.content == e.message.content.GetOr("") && m.sender == e.message.sender.GetOr("")
    ensures m.timestamp == e.message.time.GetOr(e.message.clock)
  {
    var content := e.message.content.GetOr("");
    var sender := e.message.sender.GetOr("");
    var timestamp := e.message.time.GetOr(e.message.clock);
    RawMessage(digest(HashInput(timestamp, sender, content)), content, sender,
               if e.chatName != sender then Some(e.chatName) else None, timestamp)
  }

  datatype Ingested = Ingested(window: seq<string>, messages: seq<RawMessage>)

  /** One iteration of the inner loop: duplicate check first, group filter second. */
  function IngestOne(prev: Ingested, maxlen: nat, digest: string -> string,
                     groups: seq<string>, e: Entry): Ingested
  {
    var m := Convert(digest, e);
    if m.id in prev.window then prev
    else
      var w := BoundedAppend(prev.window, m.id, maxlen);
      if PassesGroupFilter(groups, m.room) then Ingested(w, prev.messages + [m])
      else Ingested(w, prev.messages)
  }

  function IngestAll(window: seq<string>, maxlen: nat, digest: string -> string,
                     groups: seq<string>, entries: seq<Entry>): Ingested
    decreases |entries|
  {
    if entries == [] then Ingested(window, [])
    else IngestOne(IngestAll(window, maxlen, digest, groups, entries[..|entries| - 1]),
                   maxlen, digest, groups, entries[|entries| - 1])
  }

  lemma IngestAllSnoc(window: seq<string>, maxlen: nat, digest: string -> string,
                      groups: seq<string>, entries: seq<Entry>, e: Entry)
    ensures IngestAll(window, maxlen, digest, groups, entries + [e])
            == IngestOne(IngestAll(window, maxlen, digest, groups, entries), maxlen, digest, groups, e)
  {
    assert (entries + [e])[..|entries|] == entries;
  }

  /** The window stays within its bound across a whole batch. */
  lemma {:induction false} IngestAllBounded(window: seq<string>, maxlen: nat, digest: string -> string,
                                            groups: seq<string>, entries: seq<Entry>)
    requires |window| <= maxlen
    ensures |IngestAll(window, maxlen, digest, groups, entries).window| <= maxlen
    decreases |entries|
  {
    if entries != [] {
      IngestAllBounded(window, maxlen, digest, groups, entries[..|entries| - 1]);
    }
  }

  /**
   * Every message passed on comes from an entry of the batch, carries that
   * entry's key as its id, and passes the group filter.
   */
  lemma {:induction false} IngestedMessagesPassFilter(window: seq<string>, maxlen: nat, digest: string -> string,
                                                      groups: seq<string>, entries: seq<Entry>)
    ensures forall m :: m in IngestAll(window, maxlen, digest, groups, entries).messages ==>
              PassesGroupFilter(groups, m.room) && exists e :: e in entries && m == Convert(digest, e)
    decreases |entries|
  {
    if entries != [] {
      var init := entries[..|entries| - 1];
      IngestedMessagesPassFilter(window, maxlen, digest, groups, init);
      forall m | m in IngestAll(window, maxlen, digest, groups, entries).messages
        ensures PassesGroupFilter(groups, m.room) && exists e :: e in entries && m == Convert(digest, e)
      {
        if m in IngestAll(window, maxlen, digest, groups, init).messages {
          var e :| e in init && m == Convert(digest, e);
          assert e in entries;
        } else {
          assert m == Convert(digest, entries[|entries| - 1]);
        }
      }
    }
  }

  /** The messages of `ms` whose room passes the group filter, in order. */
  function KeepPassing(groups: seq<string>, ms: seq<RawMessage>): (r: seq<RawMessage>)
    decreases |ms|
  {
    if ms == [] then []
    else KeepPassing(groups, ms[..|ms| - 1])
         + (if PassesGroupFilter(groups, ms[|ms| - 1].room) then [ms[|ms| - 1]] else [])
  }

  /**
   * The group filter runs after the duplicate check: the window does not depend
   * on the monitored groups (filtered-out messages are still marked as seen),
   * and the messages passed on are those of an unfiltered run, filtered.
   */
  lemma {:induction false} GroupFilterAfterDedup(window: seq<string>, maxlen: nat, digest: string -> string,
                                                 groups: seq<string>, entries: seq<Entry>)
    ensures IngestAll(window, maxlen, digest, groups, entries).window
            == IngestAll(window, maxlen, digest, ["all"], entries).window
    ensures IngestAll(window, maxlen, digest, groups, entries).messages
            == KeepPassing(groups, IngestAll(window, maxlen, digest, ["all"], entries).messages)
    decreases |entries|
  {
    assert MonitorAll(["all"]) by { assert "all" in ["all"] && Lower("all") == "all"; }
    if entries != [] {
      var init := entries[..|entries| - 1];
      GroupFilterAfterDedup(window, maxlen, digest, groups, init);
      var all := IngestAll(window, maxlen, digest, ["all"], init).messages;
      var m := Convert(digest, entries[|entries| - 1]);
      assert (all + [m])[..|all|] == all;
    }
  }

  /** With an "all" entry among the groups, every new message is passed on. */
  lemma MonitorAllKeepsEverything(groups: seq<string>, ms: seq<RawMessage>)
    requires MonitorAll(groups)
    ensures KeepPassing(groups, ms) == ms
  {
    if ms != [] {
      MonitorAllKeepsEverything(groups, ms[..|ms| - 1]);
    }
  }

  /** Without "all", a direct message (no room) is never passed on. */
  lemma DirectMessagesDroppedUnlessAll(groups: seq<string>, m: RawMessage)
    requires !MonitorAll(groups) && m.room.None?
    ensures !PassesGroupFilter(groups, m.room)
  {
  }

  /** The same message delivered again in the next batch yields nothing and leaves the window as it was. */
  lemma ReplayIsDropped(window: seq<string>, maxlen: nat, digest: string -> string,
                        groups: seq<string>, e: Entry)
    requires 0 < maxlen
    ensures var first := IngestAll(window, maxlen, digest, groups, [e]);
            var again := IngestAll(first.window, maxlen, digest, groups, [e]);
            again.messages == [] && again.window == first.window
  {
    var first := IngestAll(window, maxlen, digest, groups, [e]);
    IngestSingle(window, maxlen, digest, groups, e);
    IngestSingle(first.window, maxlen, digest, groups, e);
    IngestOneRecords(Ingested(window, []), maxlen, digest, groups, e);
  }

  lemma IngestSingle(window: seq<string>, maxlen: nat, digest: string -> string,
                     groups: seq<string>, e: Entry)
    ensures IngestAll(window, maxlen, digest, groups, [e]) == IngestOne(Ingested(window, []), maxlen, digest, groups, e)
  {
    assert [e][..0] == [];
  }

  /** After one iteration the entry's key is in the window, whether it was a duplicate or not. */
  lemma IngestOneRecords(prev: Ingested, maxlen: nat, digest: string -> string,
                         groups: seq<string>, e: Entry)
    requires 0 < maxlen
    ensures Convert(digest, e).id in IngestOne(prev, maxlen, digest, groups, e).window
  {
  }

  /** `WeChatClient`: the deduplicator it owns, and the conversion loop of `get_recent_messages`. */
  class WeChatClient {
    const deduplicator: Deduplicator

    /** The client starts with `MessageDeduplicator()`, whose window holds 1000 keys. */
    constructor (digest: string -> string)
      ensures fresh(deduplicator) && deduplicator.Valid()
      ensures deduplicator.seenHashes == [] && deduplicator.maxlen == 1000 && deduplicator.digest == digest
    {
      deduplicator := new Deduplicator(1000, digest);
    }

    /** One pass of the inner loop of `get_recent_messages`. */
    method IngestEntry(chatName: string, msg: UiMessage, monitorGroups: seq<string>, monitorAll: bool,
                       messages: seq<RawMessage>) returns (out: seq<RawMessage>)
      requires deduplicator.Valid()
      requires monitorAll == MonitorAll(monitorGroups)
      modifies deduplicator
      ensures deduplicator.Valid()
      ensures Ingested(deduplicator.seenHashes, out)
              == IngestOne(Ingested(old(deduplicator.seenHashes), messages), deduplicator.maxlen,
                           deduplicator.digest, monitorGroups, Entry(chatName, msg))
    {
      out := messages;
      var content := msg.content.GetOr("");
      var sender := msg.sender.GetOr("");
      var timestamp := msg.time.GetOr(msg.clock);
      var duplicate := deduplicator.IsDuplicate(timestamp, sender, content);
      if duplicate {
        return;
      }
      var msgId := deduplicator.GenerateHash(timestamp, sender, content);
      var rawMsg := RawMessage(msgId, content, sender,
                               if chatName != sender then Some(chatName) else None, timestamp);
      if !monitorAll {
        if rawMsg.room.None? || rawMsg.room.value !in monitorGroups {
          return;
        }
      }
      out := out + [rawMsg];
    }

    /** The inner loop over one chat's message list. */
    method IngestChat(chatName: string, msgList: seq<UiMessage>, monitorGroups: seq<string>, monitorAll: bool,
                      ghost w0: seq<string>, ghost done: seq<Entry>, messages: seq<RawMessage>)
      returns (out: seq<RawMessage>)
      requires deduplicator.Valid()
      requires monitorAll == MonitorAll(monitorGroups)
      requires Ingested(deduplicator.seenHashes, messages)
               == IngestAll(w0, deduplicator.maxlen, deduplicator.digest, monitorGroups, done)
      modifies deduplicator
      ensures deduplicator.Valid()
      ensures Ingested(deduplicator.seenHashes, out)
              == IngestAll(w0, deduplicator.maxlen, deduplicator.digest, monitorGroups,
                           done + EntriesOf((chatName, MessageList(msgList))))
    {
      ghost var here := EntriesOf((chatName, MessageList(msgList)));
      out := messages;
      var j := 0;
      assert done + here[..0] == done;
      while j < |msgList|
        invariant 0 <= j <= |msgList|
        invariant deduplicator.Valid()
        invariant Ingested(deduplicator.seenHashes, out)
                  == IngestAll(w0, deduplicator.maxlen, deduplicator.digest, monitorGroups, done + here[..j])
      {
        out := IngestEntry(chatName, msgList[j], monitorGroups, monitorAll, out);
        assert here[j] == Entry(chatName, msgList[j]);
        IngestAllSnoc(w0, deduplicator.maxlen, deduplicator.digest, monitorGroups, done + here[..j], here[j]);
        SnocSlice(done, here, j);
        j := j + 1;
      }
      assert here[..|msgList|] == here;
    }

    /** One pass of the outer loop: a value that is not a list of messages is skipped. */
    method IngestValue(chat: (string, ChatValue), monitorGroups: seq<string>, monitorAll: bool,
                       ghost w0: seq<string>, ghost done: seq<Entry>, messages: seq<RawMessage>)
      returns (out: seq<RawMessage>)
      requires deduplicator.Valid()
      requires monitorAll == MonitorAll(monitorGroups)
      requires Ingested(deduplicator.seenHashes, messages)
               == IngestAll(w0, deduplicator.maxlen, deduplicator.digest, monitorGroups, done)
      modifies deduplicator
      ensures deduplicator.Valid()
      ensures Ingested(deduplicator.seenHashes, out)
              == IngestAll(w0, deduplicator.maxlen, deduplicator.digest, monitorGroups, done + EntriesOf(chat))
    {
      var (chatName, value) := chat;
      if value.MessageList? {
        assert chat == (chatName, MessageList(value.messages));
        out := IngestChat(chatName, value.messages, monitorGroups, monitorAll, w0, done, messages);
      } else {
        out := messages;
        assert done + EntriesOf(chat) == done;
      }
    }

    /** `get_recent_messages` on the batch the UI client returned. */
    method GetRecentMessages(rawData: RawData, monitorGroups: seq<string>) returns (messages: seq<RawMessage>)
      requires deduplicator.Valid()
      modifies deduplicator
      ensures deduplicator.Valid()
      ensures var r := IngestAll(old(deduplicator.seenHashes), deduplicator.maxlen, deduplicator.digest,
                                 monitorGroups, BatchEntries(rawData));
              messages == r.messages && deduplicator.seenHashes == r.window
    {
      ghost var w0 := deduplicator.seenHashes;
      var monitorAll := MonitorAll(monitorGroups);
      messages := [];
      if rawData.Chats? {
        var chats := rawData.chats;
        var i := 0;
        while i < |chats|
          invariant 0 <= i <= |chats|
          invariant deduplicator.Valid()
          invariant Ingested(deduplicator.seenHashes, messages)
                    == IngestAll(w0, deduplicator.maxlen, deduplicator.digest, monitorGroups, Flatten(chats[..i]))
        {
          messages := IngestValue(chats[i], monitorGroups, monitorAll, w0, Flatten(chats[..i]), messages);
          FlattenSnoc(chats, i);
          i := i + 1;
        }
        assert chats[..|chats|] == chats;
      }
    }
  }
}
