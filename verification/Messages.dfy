/** The rolling window of messages: each write of a message evicts all but the newest of its chat,
    from the message table and from the vector index beside it. */
module Messages {
  import opened Wrappers
  import opened Calendar
  import opened TimeText

  // ---------- The newest of a set ----------

  /** A message with the text of its timestamp and the row it is stored in. */
  datatype Message = Message(chat: string, id: string, text: string, sentAt: string)

  datatype Entry = Entry(rowid: nat, message: Message)

  /** The order of eviction: by the text of the timestamp, and among equals the lower row first. */
  predicate Newer(a: Entry, b: Entry) {
    Less(b.message.sentAt, a.message.sentAt) || (a.message.sentAt == b.message.sentAt && a.rowid < b.rowid)
  }

  ghost predicate Ordered(s: set<Entry>) {
    forall a, b :: a in s && b in s && a != b ==> Newer(a, b) || Newer(b, a)
  }

  function Above(s: set<Entry>, e: Entry): set<Entry> {
    set f | f in s && Newer(f, e)
  }

  /** The entries with fewer than `limit` newer ones beside them. */
  function Newest(s: set<Entry>, limit: nat): set<Entry> {
    set e | e in s && |Above(s, e)| < limit
  }

  lemma NewerIsStrict(a: Entry, b: Entry, c: Entry)
    ensures !Newer(a, a)
    ensures !(Newer(a, b) && Newer(b, a))
    ensures Newer(a, b) && Newer(b, c) ==> Newer(a, c)
  {
    LessIsStrict(a.message.sentAt);
    LessIsTotal(a.message.sentAt, b.message.sentAt);
    if Less(b.message.sentAt, a.message.sentAt) && Less(c.message.sentAt, b.message.sentAt) {
      LessIsTransitive(c.message.sentAt, b.message.sentAt, a.message.sentAt);
    }
  }

  lemma SubsetSize(a: set<Entry>, b: set<Entry>)
    requires a <= b
    ensures |a| <= |b|
    ensures a != b ==> |a| < |b|
  {
    assert b == a + (b - a);
    if a != b {
      assert b - a != {};
    }
  }

  lemma OldestExists(s: set<Entry>) returns (o: Entry)
    requires s != {} && Ordered(s)
    ensures o in s && forall e :: e in s && e != o ==> Newer(e, o)
    decreases |s|
  {
    var x :| x in s;
    if s == {x} {
      o := x;
    } else {
      var rest := s - {x};
      o := OldestExists(rest);
      if Newer(o, x) {
        forall e | e in s && e != x
          ensures Newer(e, x)
        {
          if e != o {
            NewerIsStrict(e, o, x);
          }
        }
        o := x;
      }
    }
  }

  /** As many are kept as the limit allows. */
  lemma {:induction false} NewestSize(s: set<Entry>, limit: nat)
    requires Ordered(s)
    ensures |Newest(s, limit)| == if |s| < limit then |s| else limit
    decreases |s|
  {
    if s != {} {
      var o := OldestExists(s);
      var rest := s - {o};
      NewestSize(rest, limit);
      forall e | e in rest
        ensures Above(s, e) == Above(rest, e)
      {
        NewerIsStrict(e, o, e);
      }
      NewerIsStrict(o, o, o);
      assert Above(s, o) == rest;
      assert Newest(s, limit) == Newest(rest, limit) + (if |rest| < limit then {o} else {});
    }
  }

  /** Everything that is kept is newer than anything that is not. */
  lemma KeptAreNewer(s: set<Entry>, limit: nat, n: Entry)
    requires Ordered(s) && n in s && n !in Newest(s, limit)
    ensures Newest(s, limit) <= Above(s, n)
  {
    forall k | k in Newest(s, limit)
      ensures Newer(k, n)
    {
      if Newer(n, k) {
        forall f | f in Above(s, n) ensures f in Above(s, k) {
          NewerIsStrict(f, n, k);
        }
        SubsetSize(Above(s, n), Above(s, k));
      }
    }
  }

  /** Something is left out only when as many newer ones are kept as the limit allows. */
  lemma LeftOutMeansFull(s: set<Entry>, limit: nat, n: Entry)
    requires Ordered(s) && n in s && n !in Newest(s, limit)
    ensures Newest(s, limit) <= Above(s, n) && |Newest(s, limit)| == limit
  {
    KeptAreNewer(s, limit, n);
    NewestSize(s, limit);
    SubsetSize(Above(s, n), s);
  }

  /** Keeping the newest after each addition is keeping the newest of all that were added. */
  lemma NewestAbsorbs(s: set<Entry>, x: Entry, limit: nat)
    requires Ordered(s + {x})
    ensures Newest(Newest(s, limit) + {x}, limit) == Newest(s + {x}, limit)
  {
    var kept := Newest(s, limit);
    assert Ordered(s);
    forall e | e in s + {x}
      ensures e in Newest(kept + {x}, limit) <==> e in Newest(s + {x}, limit)
    {
      var few, all := Above(kept + {x}, e), Above(s + {x}, e);
      assert few <= all;
      SubsetSize(few, all);
      if e in s && e !in kept {
        LeftOutMeansFull(s, limit, e);
        SubsetSize(kept, few);
      } else if few != all {
        var n :| n in all && n !in few;
        assert n in s && n !in kept;
        LeftOutMeansFull(s, limit, n);
        forall k | k in kept ensures k in few {
          NewerIsStrict(k, n, e);
        }
        SubsetSize(kept, few);
      }
    }
  }

  /** Timestamps in different seconds are evicted in the order of time. */
  lemma NewestByTime(s: set<Entry>, limit: nat, time: map<Entry, Instant>)
    requires time.Keys == s
    requires forall e :: e in s ==> FourDigits(UtcYear(time[e])) && e.message.sentAt == Format(time[e])
    requires forall a, b :: a in s && b in s && a != b ==> time[a] / SECOND != time[b] / SECOND
    ensures Ordered(s)
    ensures Newest(s, limit) == set e | e in s && |set f | f in s && time[f] > time[e]| < limit
  {
    hide Less, Format, UtcYear;
    forall a, b | a in s && b in s
      ensures Newer(a, b) <==> time[a] > time[b]
    {
      if a == b {
        NewerIsStrict(a, a, a);
      } else {
        LaterIsNewer(a, time[a], b, time[b]);
      }
    }
    forall e | e in s
      ensures Above(s, e) == set f | f in s && time[f] > time[e]
    {}
  }

  lemma LaterIsNewer(a: Entry, t: Instant, b: Entry, u: Instant)
    requires FourDigits(UtcYear(t)) && FourDigits(UtcYear(u))
    requires a.message.sentAt == Format(t) && b.message.sentAt == Format(u)
    requires t / SECOND != u / SECOND
    ensures Newer(a, b) <==> t > u
  {
    hide Format, Less, UtcYear, YearBefore;
    LessIsStrict(Format(t));
    YearBeforeMeans(UtcYear(t), UtcYear(u));
    YearBeforeMeans(UtcYear(u), UtcYear(t));
    if t < u {
      YearsInOrder(t, u);
      TextOrderExact(t, u);
      assert t / SECOND < u / SECOND;
    } else {
      YearsInOrder(u, t);
      TextOrderExact(u, t);
      assert u / SECOND < t / SECOND;
    }
  }

  // ---------- The tables ----------

  datatype Vector = Vector(chat: string, embedding: seq<real>)

  function Entries(messages: map<nat, Message>, chat: string): set<Entry> {
    set r | r in messages && messages[r].chat == chat :: Entry(r, messages[r])
  }

  lemma EntriesAreOrdered(messages: map<nat, Message>, chat: string)
    ensures Ordered(Entries(messages, chat))
  {
    forall a, b | a in Entries(messages, chat) && b in Entries(messages, chat) && a != b
      ensures Newer(a, b) || Newer(b, a)
    {
      LessIsTotal(a.message.sentAt, b.message.sentAt);
    }
  }

  predicate Kept(messages: map<nat, Message>, chat: string, limit: nat, r: nat)
    requires r in messages
  {
    messages[r].chat == chat ==> Entry(r, messages[r]) in Newest(Entries(messages, chat), limit)
  }

  /** The table after a chat's older messages are gone. */
  function Evicted(messages: map<nat, Message>, chat: string, limit: nat): map<nat, Message> {
    map r | r in messages && Kept(messages, chat, limit, r) :: messages[r]
  }

  lemma EntryIn(messages: map<nat, Message>, chat: string, e: Entry)
    ensures e in Entries(messages, chat)
       <==> e.rowid in messages && messages[e.rowid] == e.message && e.message.chat == chat
  {
    if e.rowid in messages && messages[e.rowid] == e.message && e.message.chat == chat {
      assert e == Entry(e.rowid, messages[e.rowid]);
    }
  }

  lemma EvictedEntries(messages: map<nat, Message>, chat: string, limit: nat, other: string)
    ensures Entries(Evicted(messages, chat, limit), other)
         == if other == chat then Newest(Entries(messages, chat), limit) else Entries(messages, other)
  {
    hide Entries, Newest;
    forall e
      ensures e in Entries(Evicted(messages, chat, limit), other)
         <==> e in if other == chat then Newest(Entries(messages, chat), limit) else Entries(messages, other)
    {
      EntryIn(messages, other, e);
      EntryIn(Evicted(messages, chat, limit), other, e);
      NewestIsPart(Entries(messages, chat), limit, e);
    }
  }

  lemma NewestIsPart(s: set<Entry>, limit: nat, e: Entry)
    ensures e in Newest(s, limit) ==> e in s
  {}

  ghost predicate Fits(messages: map<nat, Message>, limit: nat) {
    forall chat :: |Entries(messages, chat)| <= limit
  }

  /** A message is stored in one row. */
  predicate Unique(messages: map<nat, Message>) {
    forall a, b :: a in messages && b in messages && a != b ==>
      messages[a].chat != messages[b].chat || messages[a].id != messages[b].id
  }

  /** Every vector belongs to a stored message of the same chat. */
  predicate Indexed(vectors: map<nat, Vector>, messages: map<nat, Message>) {
    forall r :: r in vectors ==> r in messages && vectors[r].chat == messages[r].chat
  }

  /** The vectors after a write that brings a new one, or none. */
  function Reindexed(vectors: map<nat, Vector>, row: nat, chat: string, embedding: Option<seq<real>>)
    : map<nat, Vector>
  {
    if embedding.Some? then vectors[row := Vector(chat, embedding.value)] else vectors
  }

  class MessageStore {
    const limit: nat
    var messages: map<nat, Message>
    var vectors: map<nat, Vector>

    ghost predicate Valid()
      reads this
    {
      Unique(messages) && Fits(messages, limit) && Indexed(vectors, messages)
    }

    constructor (limit: nat)
      ensures Valid() && this.limit == limit && messages == map[] && vectors == map[]
    {
      this.limit := limit;
      messages, vectors := map[], map[];
      new;
      assert forall chat :: Entries(messages, chat) == {};
    }

    /** The row of a message, if it is stored. */
    method FindRow(chat: string, id: string) returns (r: Option<nat>)
      ensures match r
              case Some(n) => n in messages && messages[n].chat == chat && messages[n].id == id
              case None => forall n :: n in messages ==> messages[n].chat != chat || messages[n].id != id
    {
      var rest := messages.Keys;
      while rest != {}
        invariant rest <= messages.Keys
        invariant forall n :: n in messages && n !in rest ==> messages[n].chat != chat || messages[n].id != id
      {
        var n :| n in rest;
        if messages[n].chat == chat && messages[n].id == id {
          return Some(n);
        }
        rest := rest - {n};
      }
      return None;
    }

    /** The row a new message gets: one above the highest in use. */
    method NextRow() returns (r: nat)
      ensures r > 0 && forall n :: n in messages ==> n < r
    {
      r := 1;
      var rest := messages.Keys;
      while rest != {}
        invariant r > 0 && rest <= messages.Keys
        invariant forall n :: n in messages && n !in rest ==> n < r
      {
        var n :| n in rest;
        if n >= r {
          r := n + 1;
        }
        rest := rest - {n};
      }
    }

    /** Writes a message to its row, and its vector if there is one. */
    method Write(message: Message, embedding: Option<seq<real>>) returns (row: nat)
      requires Unique(messages) && Indexed(vectors, messages)
      modifies this
      ensures row in old(messages) ==> old(messages)[row].chat == message.chat && old(messages)[row].id == message.id
      ensures row !in old(messages) ==>
                (forall n :: n in old(messages) ==>
                   n < row && (old(messages)[n].chat != message.chat || old(messages)[n].id != message.id))
      ensures messages == old(messages)[row := message]
      ensures vectors == Reindexed(old(vectors), row, message.chat, embedding)
      ensures Unique(messages) && Indexed(vectors, messages)
    {
      var found := FindRow(message.chat, message.id);
      if found.Some? {
        row := found.value;
      } else {
        row := NextRow();
      }
      WriteKeepsTable(messages, vectors, row, message, embedding);
      hide Unique, Indexed;
      messages := messages[row := message];
      if embedding.Some? {
        assert (vectors - {row})[row := Vector(message.chat, embedding.value)]
            == vectors[row := Vector(message.chat, embedding.value)];
        vectors := vectors - {row};
        vectors := vectors[row := Vector(message.chat, embedding.value)];
      }
    }

    /** Drops a chat's older messages and their vectors. */
    method Evict(chat: string)
      requires Unique(messages) && Indexed(vectors, messages)
      modifies this
      ensures messages == Evicted(old(messages), chat, limit)
      ensures vectors == map r | r in old(vectors) && r in messages :: old(vectors)[r]
      ensures Unique(messages) && Indexed(vectors, messages)
    {
      hide Kept;
      var stale := set r | r in messages && !Kept(messages, chat, limit, r);
      vectors := vectors - stale;
      messages := messages - stale;
    }

    /** Stores a message, new or edited, with its vector if there is one, and evicts what its chat no
        longer has room for. A message that is not edited but new never inherits a vector. */
    method UpsertMessage(message: Message, embedding: Option<seq<real>>) returns (row: nat)
      requires Valid()
      modifies this
      ensures Valid()
      ensures row in old(messages) ==> old(messages)[row].chat == message.chat && old(messages)[row].id == message.id
      ensures row !in old(messages) ==>
                (forall n :: n in old(messages) ==>
                   n < row && (old(messages)[n].chat != message.chat || old(messages)[n].id != message.id))
      ensures messages == Evicted(old(messages)[row := message], message.chat, limit)
      ensures vectors == map r | r in Reindexed(old(vectors), row, message.chat, embedding) && r in messages
                             :: Reindexed(old(vectors), row, message.chat, embedding)[r]
      ensures row !in old(messages) && embedding.None? ==> row !in vectors
      ensures embedding.Some? && row in messages ==>
                row in vectors && vectors[row] == Vector(message.chat, embedding.value)
      ensures embedding.None? && row in messages ==>
                (row in vectors <==> row in old(vectors)) && (row in vectors ==> vectors[row] == old(vectors)[row])
      ensures forall r :: r != row ==>
                && (r in vectors <==> r in old(vectors) && r in messages)
                && (r in vectors ==> vectors[r] == old(vectors)[r])
    {
      hide Fits, Evicted;
      row := Write(message, embedding);
      Evict(message.chat);
      EvictionFits(old(messages), row, message, limit);
    }

    /** Deletes a message and its vector; an unknown message is no error. */
    method DeleteMessage(chat: string, id: string)
      requires Valid()
      modifies this
      ensures Valid()
      ensures messages == map r | r in old(messages) && !(old(messages)[r].chat == chat && old(messages)[r].id == id)
                              :: old(messages)[r]
      ensures vectors == map r | r in old(vectors) && r in messages :: old(vectors)[r]
    {
      var found := FindRow(chat, id);
      if found.None? {
        return;
      }
      vectors := vectors - {found.value};
      messages := messages - {found.value};
      DeletionFits(old(messages), found.value, limit);
    }
  }

  /** A write into a message's own row, or into a free one if the message is not stored yet, keeps
      messages apart and vectors with their message. */
  lemma WriteKeepsTable(messages: map<nat, Message>, vectors: map<nat, Vector>, row: nat, message: Message,
                        embedding: Option<seq<real>>)
    requires Unique(messages) && Indexed(vectors, messages)
    requires row in messages ==> messages[row].chat == message.chat && messages[row].id == message.id
    requires row !in messages ==>
               forall n :: n in messages ==> messages[n].chat != message.chat || messages[n].id != message.id
    ensures Unique(messages[row := message])
    ensures Indexed(Reindexed(vectors, row, message.chat, embedding), messages[row := message])
  {}

  lemma EvictionFits(messages: map<nat, Message>, row: nat, message: Message, limit: nat)
    requires Fits(messages, limit)
    requires row in messages ==> messages[row].chat == message.chat
    ensures Fits(Evicted(messages[row := message], message.chat, limit), limit)
  {
    hide Entries, Evicted, Newest;
    var written := messages[row := message];
    forall chat
      ensures |Entries(Evicted(written, message.chat, limit), chat)| <= limit
    {
      EvictedEntries(written, message.chat, limit, chat);
      if chat == message.chat {
        EntriesAreOrdered(written, chat);
        NewestSize(Entries(written, chat), limit);
      } else {
        forall e ensures e in Entries(written, chat) <==> e in Entries(messages, chat) {
          EntryIn(written, chat, e);
          EntryIn(messages, chat, e);
        }
        assert Entries(written, chat) == Entries(messages, chat);
      }
    }
  }

  lemma DeletionFits(messages: map<nat, Message>, row: nat, limit: nat)
    requires Fits(messages, limit)
    ensures Fits(messages - {row}, limit)
  {
    forall chat
      ensures |Entries(messages - {row}, chat)| <= limit
    {
      assert Entries(messages - {row}, chat) <= Entries(messages, chat);
      SubsetSize(Entries(messages - {row}, chat), Entries(messages, chat));
    }
  }

  // ---------- Runs of inserts ----------

  /** The table after inserting messages in order, each in a row not in use, as `UpsertMessage` does
      for messages not stored before. */
  function Inserted(entries: seq<Entry>, limit: nat): map<nat, Message> {
    if entries == [] then map[]
    else
      var last := entries[|entries| - 1];
      Evicted(Inserted(entries[..|entries| - 1], limit)[last.rowid := last.message], last.message.chat, limit)
  }

  ghost predicate FreeRows(entries: seq<Entry>, limit: nat) {
    forall i :: 0 <= i < |entries| ==> entries[i].rowid !in Inserted(entries[..i], limit)
  }

  function OfChat(entries: seq<Entry>, chat: string): set<Entry> {
    set e | e in entries && e.message.chat == chat
  }

  /** A chat holds exactly the newest of all messages ever inserted into it, if their timestamps differ. */
  lemma {:induction false} HoldsTheNewest(entries: seq<Entry>, limit: nat, chat: string)
    requires FreeRows(entries, limit) && Ordered(OfChat(entries, chat))
    ensures Entries(Inserted(entries, limit), chat) == Newest(OfChat(entries, chat), limit)
  {
    hide Entries, Evicted, Newest, OfChat, Ordered, FreeRows;
    if entries == [] {
      NothingInserted(limit, chat);
    } else {
      var init, last := entries[..|entries| - 1], entries[|entries| - 1];
      assert entries == init + [last];
      LastInserted(init, last, limit, chat);
      HoldsTheNewest(init, limit, chat);
      var before := Inserted(init, limit);
      EvictedEntries(before[last.rowid := last.message], last.message.chat, limit, chat);
      WrittenEntries(before, last, chat);
      if last.message.chat == chat {
        NewestAbsorbs(OfChat(init, chat), last, limit);
      }
    }
  }

  lemma NothingInserted(limit: nat, chat: string)
    ensures Entries(Inserted([], limit), chat) == Newest(OfChat([], chat), limit)
  {}

  lemma LastInserted(init: seq<Entry>, last: Entry, limit: nat, chat: string)
    requires FreeRows(init + [last], limit) && Ordered(OfChat(init + [last], chat))
    ensures FreeRows(init, limit) && Ordered(OfChat(init, chat)) && last.rowid !in Inserted(init, limit)
    ensures OfChat(init + [last], chat)
         == if last.message.chat == chat then OfChat(init, chat) + {last} else OfChat(init, chat)
  {
    hide Inserted;
    var entries := init + [last];
    assert entries[|init|] == last && entries[..|init|] == init;
    forall i | 0 <= i < |init|
      ensures init[i].rowid !in Inserted(init[..i], limit)
    {
      assert init[..i] == entries[..i] && init[i] == entries[i];
    }
    assert OfChat(init, chat) <= OfChat(entries, chat);
  }

  lemma WrittenEntries(messages: map<nat, Message>, e: Entry, chat: string)
    requires e.rowid !in messages
    ensures Entries(messages[e.rowid := e.message], chat)
         == if e.message.chat == chat then Entries(messages, chat) + {e} else Entries(messages, chat)
  {
    var written := messages[e.rowid := e.message];
    forall f | f in Entries(messages, chat) ensures f in Entries(written, chat) {
      assert f.rowid in messages && written[f.rowid] == messages[f.rowid];
    }
    if e.message.chat == chat {
      assert e == Entry(e.rowid, written[e.rowid]);
    }
  }
}
