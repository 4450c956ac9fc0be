/** The table of refused deploys and the log ring: what they hold after any run. */
module Refusals {
  import opened Wrappers

  datatype Entry = Entry(level: string, msg: string, ts: int)

  /** A recorded refusal: a place of the table. */
  datatype Refusal = Refusal(id: string, entry: Entry)

  datatype Event = Record(refusal: Refusal) | Clear(id: string)

  /** The longest suffix of at most n elements. */
  function Suffix<T>(s: seq<T>, n: nat): (r: seq<T>)
    ensures |r| == if |s| <= n then |s| else n
  {
    if |s| <= n then s else s[|s| - n..]
  }

  /** The table is the last part of the list. */
  ghost predicate Newest<T>(list: seq<T>, table: seq<T>) {
    |table| <= |list| && table == list[|list| - |table|..]
  }

  predicate Knows(table: seq<Refusal>, id: string) {
    exists i :: 0 <= i < |table| && table[i].id == id
  }

  function Remove(table: seq<Refusal>, id: string): (rest: seq<Refusal>)
    ensures !Knows(rest, id)
  {
    if table == [] then [] else if table[0].id == id then Remove(table[1..], id) else
      var rest := Remove(table[1..], id);
      assert forall i :: 0 < i <= |rest| ==> ([table[0]] + rest)[i] == rest[i - 1];
      [table[0]] + rest
  }

  predicate Distinct(table: seq<Refusal>) {
    forall i, j :: 0 <= i < j < |table| ==> table[i].id != table[j].id
  }

  // ---------------------------------------------------------------- what a run leaves

  /** Reading a run backwards: the latest record of every id that was not cleared after it, the newest last. */
  function Live(run: seq<Event>, settled: set<string>): seq<Refusal> {
    if run == [] then []
    else
      var (rest, last) := (run[..|run| - 1], run[|run| - 1]);
      match last
      case Clear(id) => Live(rest, settled + {id})
      case Record(refusal) =>
        if refusal.id in settled then Live(rest, settled) else Live(rest, settled + {refusal.id}) + [refusal]
  }

  /** What one call does to the table. */
  function After(table: seq<Refusal>, event: Event, capacity: nat): seq<Refusal> {
    match event
    case Clear(id) => Remove(table, id)
    case Record(refusal) => Suffix(Remove(table, refusal.id) + [refusal], capacity)
  }

  function Table(run: seq<Event>, capacity: nat): seq<Refusal> {
    if run == [] then [] else After(Table(run[..|run| - 1], capacity), run[|run| - 1], capacity)
  }

  predicate OnlyRecords(run: seq<Event>) {
    forall i :: 0 <= i < |run| ==> run[i].Record?
  }

  lemma {:induction false} RemoveAppend(one: seq<Refusal>, more: seq<Refusal>, id: string)
    ensures Remove(one + more, id) == Remove(one, id) + Remove(more, id)
    decreases |one|
  {
    hide Remove;
    RemoveNothing(id);
    if one == [] {
      assert one + more == more;
    } else {
      RemoveAppend(one[1..], more, id);
      assert (one + more)[0] == one[0] && (one + more)[1..] == one[1..] + more;
      RemoveHead(one, id);
      RemoveHead(one + more, id);
      var first := if one[0].id == id then [] else [one[0]];
      assert first + (Remove(one[1..], id) + Remove(more, id)) == first + Remove(one[1..], id) + Remove(more, id);
    }
  }

  lemma RemoveNothing(id: string)
    ensures Remove([], id) == []
  {
  }

  lemma RemoveHead(table: seq<Refusal>, id: string)
    requires table != []
    ensures Remove(table, id) == (if table[0].id == id then [] else [table[0]]) + Remove(table[1..], id)
  {
  }

  lemma {:induction false} RemoveUnknown(table: seq<Refusal>, id: string)
    requires !Knows(table, id)
    ensures Remove(table, id) == table
    decreases |table|
  {
    if table != [] {
      assert table[0].id != id;
      assert forall i :: 0 <= i < |table[1..]| ==> table[1..][i] == table[i + 1];
      RemoveUnknown(table[1..], id);
    }
  }

  lemma {:induction false} RemoveMembers(table: seq<Refusal>, id: string)
    ensures forall refusal :: refusal in Remove(table, id) <==> refusal in table && refusal.id != id
    decreases |table|
  {
    hide Remove;
    RemoveNothing(id);
    if table != [] {
      RemoveHead(table, id);
      RemoveMembers(table[1..], id);
    }
  }

  lemma TailOfDistinct(table: seq<Refusal>)
    requires table != [] && Distinct(table)
    ensures Distinct(table[1..]) && !Knows(table[1..], table[0].id)
  {
    forall i | 0 <= i < |table[1..]| ensures table[1..][i] == table[i + 1] {}
  }

  lemma DistinctAfter(first: Refusal, rest: seq<Refusal>)
    requires Distinct(rest) && forall refusal :: refusal in rest ==> refusal.id != first.id
    ensures Distinct([first] + rest)
  {
    var table := [first] + rest;
    forall i, j | 0 <= i < j < |table| ensures table[i].id != table[j].id {
      assert table[j] == rest[j - 1] && rest[j - 1] in rest;
    }
  }

  lemma KnowsMember(table: seq<Refusal>, id: string)
    ensures Knows(table, id) <==> exists refusal :: refusal in table && refusal.id == id
  {
    if refusal :| refusal in table && refusal.id == id {
      var i :| 0 <= i < |table| && table[i] == refusal;
    }
  }

  /** From a table of distinct ids exactly the one place goes. */
  lemma {:induction false} RemoveOne(table: seq<Refusal>, id: string)
    requires Distinct(table)
    ensures Distinct(Remove(table, id))
    ensures |Remove(table, id)| == if Knows(table, id) then |table| - 1 else |table|
    ensures forall refusal :: refusal in Remove(table, id) <==> refusal in table && refusal.id != id
    decreases |table|
  {
    hide Remove, Distinct, Knows;
    RemoveMembers(table, id);
    RemoveNothing(id);
    if table == [] {
      KnowsMember(table, id);
    } else {
      var tail := table[1..];
      RemoveHead(table, id);
      TailOfDistinct(table);
      RemoveOne(tail, id);
      KnowsMember(table, id);
      KnowsMember(tail, id);
      KnowsMember(tail, table[0].id);
      assert table == [table[0]] + tail;
      if table[0].id != id {
        DistinctAfter(table[0], Remove(tail, id));
      } else {
        assert Remove(table, id) == Remove(tail, id);
      }
    }
  }

  lemma RemoveShrinks(table: seq<Refusal>, id: string)
    requires Distinct(table)
    ensures |table| - 1 <= |Remove(table, id)| <= |table|
  {
    RemoveOne(table, id);
  }

  /** Settling one id more takes its record out of what is live. */
  lemma {:induction false} LiveSettled(run: seq<Event>, settled: set<string>, id: string)
    ensures Live(run, settled + {id}) == Remove(Live(run, settled), id)
    decreases |run|
  {
    if run != [] {
      var (rest, last) := (run[..|run| - 1], run[|run| - 1]);
      match last
      case Clear(other) =>
        LiveSettled(rest, settled + {other}, id);
        assert settled + {other} + {id} == settled + {id} + {other};
      case Record(refusal) =>
        if refusal.id in settled {
          LiveSettled(rest, settled, id);
        } else {
          LiveSettled(rest, settled + {refusal.id}, id);
          assert settled + {refusal.id} + {id} == settled + {id} + {refusal.id};
          RemoveAppend(Live(rest, settled + {refusal.id}), [refusal], id);
          LiveAvoids(rest, settled + {refusal.id}, refusal.id);
          if refusal.id == id {
            assert settled + {id} + {id} == settled + {id};
            RemoveUnknown(Live(rest, settled + {id}), id);
          }
        }
    }
  }

  lemma {:induction false} LiveAvoids(run: seq<Event>, settled: set<string>, id: string)
    requires id in settled
    ensures !Knows(Live(run, settled), id)
    decreases |run|
  {
    if run != [] {
      var (rest, last) := (run[..|run| - 1], run[|run| - 1]);
      match last
      case Clear(other) => LiveAvoids(rest, settled + {other}, id);
      case Record(refusal) =>
        LiveAvoids(rest, settled, id);
        if refusal.id !in settled { LiveAvoids(rest, settled + {refusal.id}, id); }
    }
  }

  lemma {:induction false} LiveIsDistinct(run: seq<Event>, settled: set<string>)
    ensures Distinct(Live(run, settled))
    decreases |run|
  {
    if run != [] {
      var (rest, last) := (run[..|run| - 1], run[|run| - 1]);
      match last
      case Clear(other) => LiveIsDistinct(rest, settled + {other});
      case Record(refusal) =>
        LiveIsDistinct(rest, settled);
        LiveIsDistinct(rest, settled + {refusal.id});
        LiveAvoids(rest, settled + {refusal.id}, refusal.id);
    }
  }

  /** A suffix of the live list stays one, when both lose an id. */
  lemma SuffixLoses(live: seq<Refusal>, table: seq<Refusal>, id: string)
    requires Newest(live, table)
    ensures var (l, t) := (Remove(live, id), Remove(table, id)); Newest(l, t)
  {
    var front := live[..|live| - |table|];
    assert live == front + table;
    RemoveAppend(front, table, id);
  }

  /** A record takes the table to the newest part of the longer live list. */
  lemma RecordKeepsNewest(live: seq<Refusal>, table: seq<Refusal>, refusal: Refusal, capacity: nat)
    requires Distinct(live) && Newest(live, table)
    ensures
      var (l, t) := (Remove(live, refusal.id) + [refusal], Suffix(Remove(table, refusal.id) + [refusal], capacity));
      && Newest(l, t)
      && (table == Suffix(live, capacity) ==> t == Suffix(l, capacity))
  {
    hide Remove, Knows, Suffix, Distinct, Newest;
    SuffixLoses(live, table, refusal.id);
    SuffixIsDistinct(live, table);
    RemoveShrinks(table, refusal.id);
    SuffixGrows(Remove(live, refusal.id), Remove(table, refusal.id), refusal, capacity);
    if table == Suffix(live, capacity) { SuffixIsWholeOrFull(live, capacity); }
  }

  lemma SuffixIsWholeOrFull<T>(s: seq<T>, n: nat)
    ensures Suffix(s, n) == s || |Suffix(s, n)| == n
  {
  }

  lemma SuffixGrows<T>(live: seq<T>, table: seq<T>, newest: T, capacity: nat)
    requires Newest(live, table)
    ensures
      var t := Suffix(table + [newest], capacity);
      && Newest(live + [newest], t)
      && (table == live || |table| + 1 >= capacity ==> t == Suffix(live + [newest], capacity))
  {
  }

  lemma LastEventLive(run: seq<Event>)
    requires run != []
    ensures
      var before := Live(run[..|run| - 1], {});
      match run[|run| - 1]
      case Clear(id) => Live(run, {}) == Remove(before, id)
      case Record(refusal) => Live(run, {}) == Remove(before, refusal.id) + [refusal]
  {
    var (rest, last) := (run[..|run| - 1], run[|run| - 1]);
    var id := if last.Clear? then last.id else last.refusal.id;
    LiveSettled(rest, {}, id);
    assert {} + {id} == {id};
  }

  /** After any run the table is the newest part of the live list, in order, within capacity; and all of it that
      fits unless something was cleared. */
  lemma {:induction false} TableIsNewestLive(run: seq<Event>, capacity: nat)
    ensures
      var (live, table) := (Live(run, {}), Table(run, capacity));
      && Newest(live, table)
      && |table| <= capacity
      && (OnlyRecords(run) ==> table == Suffix(live, capacity))
    decreases |run|
  {
    hide Remove, Distinct, Live, Knows, Suffix, Newest;
    if run != [] {
      var (rest, last) := (run[..|run| - 1], run[|run| - 1]);
      TableIsNewestLive(rest, capacity);
      LastEventLive(run);
      LiveIsDistinct(rest, {});
      var (live, table) := (Live(rest, {}), Table(rest, capacity));
      match last
      case Clear(id) =>
        SuffixLoses(live, table, id);
        SuffixIsDistinct(live, table);
        RemoveOne(table, id);
      case Record(refusal) =>
        RecordKeepsNewest(live, table, refusal, capacity);
    } else {
      NothingLive();
      NothingToCut<Refusal>(capacity);
    }
  }

  lemma NothingToCut<T>(n: nat)
    ensures Suffix<T>([], n) == [] && Newest<T>([], [])
  {
  }

  lemma NothingLive()
    ensures Live([], {}) == []
  {
  }

  lemma SuffixIsDistinct(live: seq<Refusal>, table: seq<Refusal>)
    requires Distinct(live) && Newest(live, table)
    ensures Distinct(table)
  {
  }

  /** With clears too: as long as the live records have fitted all along, none of them is missing. */
  lemma {:induction false} NothingDroppedWhileItFits(run: seq<Event>, capacity: nat)
    requires forall n :: 0 <= n <= |run| ==> |Live(run[..n], {})| <= capacity
    ensures Table(run, capacity) == Live(run, {})
    decreases |run|
  {
    hide Remove, Live;
    if run != [] {
      var rest := run[..|run| - 1];
      forall n | 0 <= n <= |rest| ensures |Live(rest[..n], {})| <= capacity { assert rest[..n] == run[..n]; }
      NothingDroppedWhileItFits(rest, capacity);
      LastEventLive(run);
      assert run[..|run|] == run;
    } else {
      NothingLive();
    }
  }

  /** At every point of a run the table holds all live records exactly when at every point they fit. */
  lemma NothingMissingIff(run: seq<Event>, capacity: nat)
    ensures (forall n :: 0 <= n <= |run| ==> Table(run[..n], capacity) == Live(run[..n], {}))
      <==> (forall n :: 0 <= n <= |run| ==> |Live(run[..n], {})| <= capacity)
  {
    hide Table, Live;
    forall n | 0 <= n <= |run| ensures |Table(run[..n], capacity)| <= capacity { TableIsNewestLive(run[..n], capacity); }
    if forall n :: 0 <= n <= |run| ==> |Live(run[..n], {})| <= capacity {
      forall n | 0 <= n <= |run| ensures Table(run[..n], capacity) == Live(run[..n], {}) {
        forall m | 0 <= m <= n ensures |Live(run[..n][..m], {})| <= capacity { assert run[..n][..m] == run[..m]; }
        NothingDroppedWhileItFits(run[..n], capacity);
      }
    }
  }

  // ---------------------------------------------------------------- which live records the table holds

  /** The ids a run mentions. */
  function Mentioned(run: seq<Event>): set<string> {
    set event | event in run :: IdOf(event)
  }

  function IdOf(event: Event): string {
    if event.Clear? then event.id else event.refusal.id
  }

  /** What a run leaves, in two parts: what its end leaves, after what its beginning leaves of other ids. */
  lemma {:induction false} LiveInTwoParts(run: seq<Event>, more: seq<Event>, settled: set<string>)
    ensures Live(run + more, settled) == Live(run, settled + Mentioned(more)) + Live(more, settled)
    decreases |more|
  {
    if more == [] {
      assert run + more == run && settled + Mentioned([]) == settled;
    } else {
      var (rest, last) := (more[..|more| - 1], more[|more| - 1]);
      assert (run + more)[..|run + more| - 1] == run + rest && (run + more)[|run + more| - 1] == last;
      assert Mentioned(more) == Mentioned(rest) + {IdOf(last)} by { assert more == rest + [last]; }
      if last.Record? && last.refusal.id in settled {
        LiveInTwoParts(run, rest, settled);
        assert settled + Mentioned(more) == settled + Mentioned(rest);
      } else {
        LiveInTwoParts(run, rest, settled + {IdOf(last)});
        assert settled + Mentioned(more) == settled + {IdOf(last)} + Mentioned(rest);
      }
    }
  }

  /** A record with nothing about its id after it stands in the live list right before what the rest of the run leaves. */
  lemma LiveFrom(before: seq<Event>, refusal: Refusal, more: seq<Event>)
    requires refusal.id !in Mentioned(more)
    ensures
      var (live, newer) := (Live(before + [Record(refusal)] + more, {}), Live(more, {}));
      && |newer| < |live| && live[|live| - |newer|..] == newer && live[|live| - |newer| - 1] == refusal
  {
    hide Live, Mentioned;
    var settled := {} + Mentioned(more);
    LiveInTwoParts(before + [Record(refusal)], more, {});
    LiveInTwoParts(before, [Record(refusal)], settled);
    LiveOfOne(refusal, settled);
  }

  lemma LiveOfOne(refusal: Refusal, settled: set<string>)
    requires refusal.id !in settled
    ensures Live([Record(refusal)], settled) == [refusal]
  {
    assert [Record(refusal)][..0] == [];
  }

  /** So the table knows it exactly when it is longer than what is newer. */
  lemma KnownIffLonger(before: seq<Event>, refusal: Refusal, more: seq<Event>, capacity: nat)
    requires refusal.id !in Mentioned(more)
    ensures
      var (run, newer) := (before + [Record(refusal)] + more, Live(more, {}));
      Knows(Table(run, capacity), refusal.id) <==> |newer| < |Table(run, capacity)|
  {
    hide Live, Table, Mentioned;
    var run := before + [Record(refusal)] + more;
    var (live, newer, table) := (Live(run, {}), Live(more, {}), Table(run, capacity));
    LiveFrom(before, refusal, more);
    TableIsNewestLive(run, capacity);
    LiveIsDistinct(run, {});
    var at := |live| - |newer| - 1;
    if |newer| < |table| {
      assert table[|table| - |newer| - 1] == live[at];
    }
    if Knows(table, refusal.id) {
      var i :| 0 <= i < |table| && table[i].id == refusal.id;
      assert table[i] == live[|live| - |table| + i];
    }
  }

  /** One event about another id: the table keeps knowing the record unless a record finds it full of newer ones. */
  lemma KnownAfter(table: seq<Refusal>, newer: seq<Refusal>, known: Refusal, event: Event, capacity: nat)
    requires Distinct(table) && IdOf(event) != known.id && |newer| < |table| <= capacity
    requires table[|table| - |newer|..] == newer && table[|table| - |newer| - 1] == known
    ensures
      var left := Remove(newer, IdOf(event));
      |After(table, event, capacity)| > (if event.Record? then |left| + 1 else |left|) <==> (event.Record? ==> |left| + 1 < capacity)
  {
    hide Remove, Suffix;
    var older := table[..|table| - |newer| - 1];
    assert table == older + ([known] + newer);
    RemoveAppend(older, [known] + newer, IdOf(event));
    RemoveAppend([known], newer, IdOf(event));
    RemoveUnknown([known], IdOf(event));
  }

  /** After any run, clears included: the table holds a live record exactly when, at every point since it was recorded,
      fewer than capacity newer records were live. */
  lemma {:induction false} HeldIffFewNewer(before: seq<Event>, refusal: Refusal, more: seq<Event>, capacity: nat)
    requires refusal.id !in Mentioned(more)
    ensures Knows(Table(before + [Record(refusal)] + more, capacity), refusal.id) <==>
      forall n :: 0 <= n <= |more| ==> |Live(more[..n], {})| < capacity
    decreases |more|
  {
    hide Live, Mentioned, Knows, After, Remove, Suffix;
    var run := before + [Record(refusal)] + more;
    KnownIffLonger(before, refusal, more, capacity);
    assert more[..|more|] == more;
    if more == [] {
      assert run == before + [Record(refusal)] && run[..|run| - 1] == before;
      NothingLive();
      AfterRecord(Table(before, capacity), refusal, capacity);
    } else {
      var (rest, last) := (more[..|more| - 1], more[|more| - 1]);
      var shorter := before + [Record(refusal)] + rest;
      assert run[..|run| - 1] == shorter && run[|run| - 1] == last;
      MentionedRest(more);
      HeldIffFewNewer(before, refusal, rest, capacity);
      KnownIffLonger(before, refusal, rest, capacity);
      forall n | 0 <= n <= |rest| ensures rest[..n] == more[..n] {}
      assert rest[..|rest|] == rest;
      LastEventLive(more);
      LiveIsDistinct(rest, {});
      RemoveOne(Live(rest, {}), IdOf(last));
      HeldOneMore(before, refusal, rest, last, capacity);
      if (forall n :: 0 <= n <= |rest| ==> |Live(rest[..n], {})| < capacity) && |Live(more, {})| < capacity {
        forall n | 0 <= n <= |more| ensures |Live(more[..n], {})| < capacity {
          if n < |more| { assert more[..n] == rest[..n]; }
        }
      }
      if forall n :: 0 <= n <= |more| ==> |Live(more[..n], {})| < capacity {
        forall n | 0 <= n <= |rest| ensures |Live(rest[..n], {})| < capacity { assert more[..n] == rest[..n]; }
        assert |Live(more[..|more|], {})| < capacity;
      }
    }
  }

  lemma MentionedRest(more: seq<Event>)
    requires more != []
    ensures Mentioned(more) == Mentioned(more[..|more| - 1]) + {IdOf(more[|more| - 1])}
  {
    assert more == more[..|more| - 1] + [more[|more| - 1]];
  }

  lemma AfterRecord(table: seq<Refusal>, refusal: Refusal, capacity: nat)
    ensures |After(table, Record(refusal), capacity)| > 0 <==> capacity > 0
  {
    hide Remove;
  }

  /** The induction step: one more event about another id. */
  lemma HeldOneMore(before: seq<Event>, refusal: Refusal, rest: seq<Event>, last: Event, capacity: nat)
    requires refusal.id !in Mentioned(rest) && IdOf(last) != refusal.id
    ensures
      var shorter := before + [Record(refusal)] + rest;
      var left := Remove(Live(rest, {}), IdOf(last));
      var newer := if last.Record? then left + [last.refusal] else left;
      |newer| < |After(Table(shorter, capacity), last, capacity)| <==>
        |Live(rest, {})| < |Table(shorter, capacity)| && (last.Record? ==> |newer| < capacity)
  {
    hide Live, Table, Mentioned, After, Remove, Knows;
    var shorter := before + [Record(refusal)] + rest;
    var (live, newer, table) := (Live(shorter, {}), Live(rest, {}), Table(shorter, capacity));
    LiveFrom(before, refusal, rest);
    TableIsNewestLive(shorter, capacity);
    LiveIsDistinct(shorter, {});
    SuffixIsDistinct(live, table);
    if |newer| < |table| {
      assert table[|table| - |newer|..] == newer && table[|table| - |newer| - 1] == live[|live| - |newer| - 1];
      KnownAfter(table, newer, refusal, last, capacity);
    } else {
      ShorterStays(newer, table, last, capacity);
    }
  }

  /** A table that holds only part of what is newer does not come to hold more. */
  lemma ShorterStays(newer: seq<Refusal>, table: seq<Refusal>, event: Event, capacity: nat)
    requires |table| <= |newer| && table == newer[|newer| - |table|..]
    ensures
      var left := Remove(newer, IdOf(event));
      |After(table, event, capacity)| <= if event.Record? then |left| + 1 else |left|
  {
    hide Remove;
    SuffixLoses(newer, table, IdOf(event));
  }

  // ---------------------------------------------------------------- when a clear leaves a gap

  /** The table holds all of the newest live refusals that fit. */
  predicate Full(run: seq<Event>, capacity: nat) {
    Table(run, capacity) == Suffix(Live(run, {}), capacity)
  }

  /** Clearing an id leaves the table full exactly when nothing older had been dropped before, or the table does not
      know the id. */
  lemma ClearStaysFullIff(live: seq<Refusal>, id: string, capacity: nat)
    requires Distinct(live)
    ensures Remove(Suffix(live, capacity), id) == Suffix(Remove(live, id), capacity) <==>
      |live| <= capacity || !Knows(Suffix(live, capacity), id)
  {
    var table := Suffix(live, capacity);
    SuffixIsDistinct(live, table);
    hide Remove, Knows, Suffix, Distinct;
    SuffixLoses(live, table, id);
    RemoveOne(live, id);
    RemoveOne(table, id);
    if |live| > capacity && !Knows(table, id) {
      RemoveUnknown(table, id);
      SuffixIsUnique(Remove(live, id), table, capacity);
    }
  }

  lemma SuffixIsUnique<T>(s: seq<T>, part: seq<T>, n: nat)
    requires |part| == n <= |s| && part == s[|s| - n..]
    ensures part == Suffix(s, n)
  {
  }

  /** The clear at a position of the run leaves no gap: all that was live had fitted, or the id was not in the table. */
  predicate LeavesNoGap(run: seq<Event>, n: nat, capacity: nat)
    requires n < |run|
  {
    run[n].Clear? ==> |Live(run[..n], {})| <= capacity || !Knows(Table(run[..n], capacity), run[n].id)
  }

  /** One call keeps the table full exactly when it is a record, or a clear that leaves no gap. */
  lemma StaysFullIff(run: seq<Event>, capacity: nat)
    requires run != [] && Full(run[..|run| - 1], capacity)
    ensures Full(run, capacity) <==> LeavesNoGap(run, |run| - 1, capacity)
  {
    hide Remove, Knows, Suffix, Distinct, Live;
    var (rest, last) := (run[..|run| - 1], run[|run| - 1]);
    LastEventLive(run);
    LiveIsDistinct(rest, {});
    TableIsNewestLive(rest, capacity);
    match last
    case Clear(id) => ClearStaysFullIff(Live(rest, {}), id, capacity);
    case Record(refusal) => RecordKeepsNewest(Live(rest, {}), Table(rest, capacity), refusal, capacity);
  }

  /** Over a whole run, with clears: the table holds the last capacity live ids at every point exactly when no clear
      of the run leaves a gap. */
  lemma {:induction false} FullThroughoutIff(run: seq<Event>, capacity: nat)
    ensures (forall n :: 0 <= n <= |run| ==> Full(run[..n], capacity)) <==> (forall n :: 0 <= n < |run| ==> LeavesNoGap(run, n, capacity))
    decreases |run|
  {
    hide Full, LeavesNoGap;
    assert run[..|run|] == run;
    if run == [] {
      EmptyIsFull(capacity);
    } else {
      var rest := run[..|run| - 1];
      FullThroughoutIff(rest, capacity);
      forall n | 0 <= n <= |rest| ensures rest[..n] == run[..n] {}
      forall n | 0 <= n < |rest| ensures LeavesNoGap(rest, n, capacity) <==> LeavesNoGap(run, n, capacity) {
        SameGap(rest, run, n, capacity);
      }
      assert rest[..|rest|] == rest;
      if Full(rest, capacity) { StaysFullIff(run, capacity); }
    }
  }

  lemma EmptyIsFull(capacity: nat)
    ensures Full([], capacity)
  {
  }

  lemma SameGap(rest: seq<Event>, run: seq<Event>, n: nat, capacity: nat)
    requires n < |rest| && rest <= run
    ensures LeavesNoGap(rest, n, capacity) <==> LeavesNoGap(run, n, capacity)
  {
    assert rest[..n] == run[..n];
  }

  /** A clear that leaves one: of two recorded ids the older is dropped, and clearing the newer leaves nothing although
      the older is live. */
  lemma ClearCanLeaveGap(older: Refusal, newer: Refusal)
    requires older.id != newer.id
    ensures
      var run := [Record(older), Record(newer), Clear(newer.id)];
      Table(run, 1) == [] && Suffix(Live(run, {}), 1) == [older]
  {
    var run := [Record(older), Record(newer), Clear(newer.id)];
    assert run[..2] == [Record(older), Record(newer)] && run[..2][..1] == [Record(older)] && run[..1][..0] == [];
    LastEventLive(run[..1]);
    LastEventLive(run[..2]);
    LastEventLive(run);
    assert [Record(older)][..0] == [];
    assert Table([Record(older)], 1) == [older];
    assert Table([Record(older), Record(newer)], 1) == [newer];
    assert Live([Record(older)], {}) == [older];
    assert Live([Record(older), Record(newer)], {}) == [older, newer];
  }

  // ---------------------------------------------------------------- the table

  /** One place at most is over capacity after a record. */
  lemma RecordFits(table: seq<Refusal>, refusal: Refusal, capacity: nat)
    requires Distinct(table) && |table| <= capacity
    ensures
      var grown := Remove(table, refusal.id) + [refusal];
      && Suffix(grown, capacity) == (if |grown| > capacity then grown[1..] else grown)
      && Distinct(Suffix(grown, capacity))
  {
    hide Remove;
    RemoveOne(table, refusal.id);
  }

  /** Clearing an id leaves the others known. */
  lemma ClearKnows(table: seq<Refusal>, id: string)
    requires Distinct(table)
    ensures forall other :: Knows(Remove(table, id), other) <==> other != id && Knows(table, other)
  {
    hide Remove;
    RemoveOne(table, id);
    forall other | other != id && Knows(table, other) ensures Knows(Remove(table, id), other) {
      var i :| 0 <= i < |table| && table[i].id == other;
      assert table[i] in Remove(table, id);
    }
    forall other | Knows(Remove(table, id), other) ensures other != id && Knows(table, other) {
      var i :| 0 <= i < |Remove(table, id)| && Remove(table, id)[i].id == other;
      assert Remove(table, id)[i] in table;
    }
  }

  /** A record makes no other id known, dropped oldest or not. */
  lemma RecordKnows(table: seq<Refusal>, refusal: Refusal)
    requires Distinct(table)
    ensures
      var grown := Remove(table, refusal.id) + [refusal];
      forall other :: Knows(grown, other) || Knows(grown[1..], other) ==> other == refusal.id || Knows(table, other)
  {
    hide Remove;
    var (kept, grown) := (Remove(table, refusal.id), Remove(table, refusal.id) + [refusal]);
    ClearKnows(table, refusal.id);
    forall other | Knows(grown, other) || Knows(grown[1..], other) ensures other == refusal.id || Knows(table, other) {
      if Knows(grown[1..], other) {
        var i :| 0 <= i < |grown[1..]| && grown[1..][i].id == other;
        assert grown[i + 1].id == other;
      }
      var i :| 0 <= i < |grown| && grown[i].id == other;
      if i < |kept| { assert kept[i].id == other; }
    }
  }

  const REFUSED := "deploy refused: "

  /** DeployRefusals. The Map is the list of its entries in insertion order. */
  class DeployRefusals {
    const capacity: nat
    const maxLine: nat
    var byId: seq<Refusal>
    ghost var run: seq<Event>

    ghost predicate Valid()
      reads this
    {
      byId == Table(run, capacity) && Distinct(byId)
    }

    constructor (capacity: nat, maxLine: nat)
      ensures Valid() && run == [] && this.capacity == capacity && this.maxLine == maxLine
    {
      this.capacity, this.maxLine := capacity, maxLine;
      byId, run := [], [];
    }

    /** The line of a refused deploy: cut to maxLine, so it starts as the notice does whatever the message is. */
    function NewEntry(message: string, now: int): (entry: Entry)
      ensures entry.level == "error" && entry.ts == now && |entry.msg| <= maxLine
      ensures entry.msg <= "deploy refused: " + message && (|entry.msg| == maxLine || entry.msg == "deploy refused: " + message)
    {
      var line := REFUSED + message;
      Entry("error", if |line| <= maxLine then line else line[..maxLine], now)
    }

    method Delete(id: string) returns (known: bool)
      requires Distinct(byId)
      modifies this`byId
      ensures known == Knows(old(byId), id) && byId == Remove(old(byId), id) && Distinct(byId)
    {
      RemoveOne(byId, id);
      known := |Remove(byId, id)| < |byId|;
      byId := Remove(byId, id);
    }

    method Record(id: string, entry: Entry)
      requires Valid()
      modifies this
      ensures Valid() && run == old(run) + [Event.Record(Refusal(id, entry))]
      ensures forall other :: Knows(byId, other) ==> other == id || Knows(old(byId), other)
    {
      hide Remove, Distinct, Live, Suffix;
      TableIsNewestLive(run, capacity);
      RecordFits(byId, Refusal(id, entry), capacity);
      ghost var event := Event.Record(Refusal(id, entry));
      assert (run + [event])[..|run|] == run;
      var known := Delete(id);
      byId := byId + [Refusal(id, entry)];
      RecordKnows(old(byId), Refusal(id, entry));
      if |byId| > capacity {
        byId := byId[1..];
      }
      run := run + [event];
    }

    method Clear(id: string) returns (known: bool)
      requires Valid()
      modifies this
      ensures Valid() && run == old(run) + [Event.Clear(id)] && known == Knows(old(byId), id)
      ensures forall other :: Knows(byId, other) <==> other != id && Knows(old(byId), other)
    {
      ClearKnows(byId, id);
      known := Delete(id);
      assert (run + [Event.Clear(id)])[..|run|] == run;
      run := run + [Event.Clear(id)];
    }

    /** The entries logged for an id, after a time if one is given; none when the table does not know it. */
    method Logs(id: string, since: Option<int>) returns (logs: Option<seq<Entry>>)
      requires Valid()
      ensures logs.Some? <==> Knows(byId, id)
      ensures forall refusal :: refusal in byId && refusal.id == id ==>
        logs == Some(if since.None? || refusal.entry.ts > since.value then [refusal.entry] else [])
    {
      var i := 0;
      while i < |byId|
        invariant 0 <= i <= |byId| && forall k :: 0 <= k < i ==> byId[k].id != id
      {
        if byId[i].id == id {
          return Some(if since.None? || byId[i].entry.ts > since.value then [byId[i].entry] else []);
        }
        i := i + 1;
      }
      return None;
    }
  }

  // ---------------------------------------------------------------- the log ring

  /** A function's log: an array that grows and is cut in place. */
  class Log {
    var entries: seq<Entry>
    ghost var appended: seq<Entry>

    constructor ()
      ensures entries == appended == []
    {
      entries, appended := [], [];
    }

    /** appendLog: whatever was appended before, the log is the longest suffix of it all that fits. */
    method Append(entry: Entry, size: nat)
      requires entries == Suffix(appended, size)
      modifies this
      ensures appended == old(appended) + [entry] && entries == Suffix(appended, size)
    {
      entries := entries + [entry];
      if |entries| > size {
        entries := entries[|entries| - size..];
      }
      appended := appended + [entry];
    }
  }
}
