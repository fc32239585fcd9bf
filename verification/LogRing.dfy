/**
The bounded log ring: every record gets the next sequence number, the last `capacity` records are kept.
*/
module LogRing {
  datatype Record = Record(seqNo: nat, kind: string, text: string)

  /** The buffer holds the last records. */
  ghost predicate Kept(history: seq<Record>, buf: seq<Record>) {
    |buf| <= |history| && buf == history[|history| - |buf|..]
  }

  ghost predicate Numbered(history: seq<Record>) {
    forall i | 0 <= i < |history| :: history[i].seqNo == i
  }

  /** With a new record, the last ones are still the last ones, also without the oldest. */
  lemma KeptMore(history: seq<Record>, buf: seq<Record>, rec: Record)
    requires Kept(history, buf) && Numbered(history) && rec.seqNo == |history|
    ensures Numbered(history + [rec])
    ensures Kept(history + [rec], buf + [rec]) && Kept(history + [rec], (buf + [rec])[1..])
  {
    assert (history + [rec])[|history| - |buf|..][1..] == (history + [rec])[|history| - |buf| + 1..];
  }

  class LogRing {
    const capacity: nat
    var buf: seq<Record>
    var next: nat                  // all-time count, survives eviction
    var subs: set<nat>             // push callbacks, by identity
    ghost var history: seq<Record>

    ghost predicate Valid()
      reads this
    {
      && next == |history| && Numbered(history)
      && |buf| == (if next <= capacity then next else capacity)
      && Kept(history, buf)
    }

    constructor (capacity: nat)
      ensures Valid() && history == [] && this.capacity == capacity && subs == {}
    {
      this.capacity := capacity;
      buf, next, subs, history := [], 0, {}, [];
    }

    /** Stores one record, evicting the oldest when full, and names the callbacks to run once the lock is released. */
    method Append(kind: string, text: string) returns (rec: Record, notify: set<nat>)
      requires Valid()
      modifies this
      ensures Valid() && history == old(history) + [rec] && rec == Record(old(next), kind, text)
      ensures notify == old(subs) == subs
    {
      hide Kept, Numbered;
      rec := Record(next, kind, text);
      KeptMore(history, buf, rec);
      buf := buf + [rec];
      if |buf| > capacity { buf := buf[1..]; }
      next := next + 1;
      history := history + [rec];
      notify := subs;
    }

    /** The kept records from the cursor on, and the cursor to poll with next. */
    method Since(cursor: int) returns (out: seq<Record>, at: nat)
      requires Valid()
      ensures at == |history|
      ensures var first := |history| - |buf|;
              out == if cursor <= first then buf else if cursor >= |history| then [] else history[cursor..]
    {
      out := [];
      ghost var first := |history| - |buf|;
      for i := 0 to |buf|
        invariant out == if cursor <= first then buf[..i]
                         else if cursor >= first + i then []
                         else history[cursor..first + i]
      {
        assert buf[i] == history[first + i];
        if buf[i].seqNo >= cursor { out := out + [buf[i]]; }
      }
      at := next;
    }

    method Subscribe(push: nat)
      requires Valid()
      modifies this
      ensures Valid() && subs == old(subs) + {push} && history == old(history)
    {
      subs := subs + {push};
    }

    method Unsubscribe(push: nat)
      requires Valid()
      modifies this
      ensures Valid() && subs == old(subs) - {push} && history == old(history)
    {
      subs := subs - {push};
    }
  }
}
