/** The table of recently seen users: each email's mark, remembered until the email has been idle. */
module Users {
  import opened Options
  import opened Marks

  datatype UserEntry = UserEntry(mark: Mark32, lastSeen: int)

  /** What happened to the table: an email was seen, or those last seen before a cutoff were dropped. */
  datatype Event = Seen(email: string, at: int) | Pruned(cutoff: int)

  /** Event j saw the email, and no later event did. */
  predicate LastSeen(events: seq<Event>, email: string, j: int) {
    && 0 <= j < |events| && events[j].Seen? && events[j].email == email
    && forall i | j < i < |events| && events[i].Seen? :: events[i].email != email
  }

  /** The last sighting of the email, at event j, was never before a later cutoff. */
  predicate Current(events: seq<Event>, email: string, j: int) {
    LastSeen(events, email, j) && forall i | j < i < |events| && events[i].Pruned? :: events[j].at >= events[i].cutoff
  }

  /** The table holds exactly the users whose last sighting has survived every prune since. */
  ghost predicate Remembers(users: map<string, UserEntry>, events: seq<Event>) {
    && (forall e | e in users :: exists j :: Current(events, e, j) && users[e].lastSeen == events[j].at)
    && (forall e, j | Current(events, e, j) :: e in users)
  }

  lemma SeenRemembers(users: map<string, UserEntry>, events: seq<Event>, email: string, entry: UserEntry)
    requires Remembers(users, events)
    ensures Remembers(users[email := entry], events + [Seen(email, entry.lastSeen)])
  {
    var after, next := events + [Seen(email, entry.lastSeen)], users[email := entry];
    assert Current(after, email, |events|);
    forall e, j ensures e != email ==> (Current(after, e, j) <==> Current(events, e, j)) {
      if e != email {
        CurrentAfter(events, Seen(email, entry.lastSeen), e, j);
      }
    }
    forall e | e in next ensures exists j :: Current(after, e, j) && next[e].lastSeen == after[j].at {
      if e == email {
        assert after[|events|].at == entry.lastSeen;
      } else {
        var j :| Current(events, e, j) && users[e].lastSeen == events[j].at;
        assert Current(after, e, j) && after[j] == events[j];
      }
    }
  }

  lemma CurrentAfter(events: seq<Event>, ev: Event, e: string, j: int)
    requires ev.Seen? ==> ev.email != e
    ensures Current(events + [ev], e, j) <==> Current(events, e, j) && (ev.Pruned? ==> events[j].at >= ev.cutoff)
  {
    var after := events + [ev];
    assert after[|events|] == ev;
    assert forall i | 0 <= i < |events| :: after[i] == events[i];
    if Current(after, e, j) {
      assert LastSeen(events, e, j);
    }
  }

  /** The users not last seen before the cutoff. */
  function Kept(users: map<string, UserEntry>, cutoff: int): map<string, UserEntry> {
    map e | e in users && !(users[e].lastSeen < cutoff) :: users[e]
  }

  lemma PrunedRemembers(users: map<string, UserEntry>, events: seq<Event>, cutoff: int)
    requires Remembers(users, events)
    ensures Remembers(Kept(users, cutoff), events + [Pruned(cutoff)])
  {
    var after := events + [Pruned(cutoff)];
    forall e, j ensures Current(after, e, j) <==> Current(events, e, j) && events[j].at >= cutoff {
      CurrentAfter(events, Pruned(cutoff), e, j);
    }
    var kept := Kept(users, cutoff);
    forall e | e in kept ensures exists j :: Current(after, e, j) && kept[e].lastSeen == after[j].at {
      var j :| Current(events, e, j) && users[e].lastSeen == events[j].at;
      assert Current(after, e, j) && after[j] == events[j];
    }
    forall e, j | Current(after, e, j) ensures e in kept {
      var k :| Current(events, e, k) && users[e].lastSeen == events[k].at;
      assert k == j;
    }
  }

  class Users {
    const queues: nat
    /** The hash of an email; any function will do. */
    const hash: string -> Sum64
    var users: map<string, UserEntry>
    ghost var events: seq<Event>

    ghost predicate Valid()
      reads this
    {
      && QueueCount(queues) && Remembers(users, events)
      && forall e | e in users :: e != "" && users[e].mark == For(hash(e), queues)
    }

    constructor (queues: nat, hash: string -> Sum64)
      requires QueueCount(queues)
      ensures Valid() && this.queues == queues && this.hash == hash && events == []
    {
      this.queues, this.hash := queues, hash;
      users, events := map[], [];
    }

    /** Mark: 0 for no email, else the email's mark, the same whether remembered, forgotten or new. */
    method Mark(email: string, now: int) returns (mark: Mark32)
      requires Valid()
      modifies this
      ensures Valid()
      ensures email == "" ==> mark == 0 && users == old(users) && events == old(events)
      ensures email != "" ==> mark == For(hash(email), queues) && UserMark(mark, queues)
                              && users == old(users)[email := UserEntry(mark, now)]
                              && events == old(events) + [Seen(email, now)]
    {
      if email == "" {
        return 0;
      }
      mark := if email in users then users[email].mark else For(hash(email), queues);
      ForIsResidue(hash(email), queues);
      SeenRemembers(users, events, email, UserEntry(mark, now));
      users := users[email := UserEntry(mark, now)];
      events := events + [Seen(email, now)];
    }

    /** Prune: exactly the emails last seen before the cutoff go. */
    method Prune(idle: int, now: int)
      requires Valid()
      modifies this
      ensures Valid() && events == old(events) + [Pruned(now - idle)]
      ensures users == Kept(old(users), now - idle)
    {
      var cutoff := now - idle;
      PrunedRemembers(users, events, cutoff);
      users := Kept(users, cutoff);
      events := events + [Pruned(cutoff)];
    }

    /** Marks: a copy of the email -> mark table. */
    method Marks() returns (marks: map<string, Mark32>)
      requires Valid()
      ensures marks.Keys == users.Keys && forall e | e in marks :: marks[e] == For(hash(e), queues)
    {
      marks := map e | e in users :: users[e].mark;
    }
  }
}
