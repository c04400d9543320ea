/** What a journal of memories means (`memory/memory.go`): which memories are live after it,
    and that rebuilding in two passes finds the same ones. */
module MemoryLog {
  import opened Vectors
  import Tags

  type Tenant = nat

  /** `MemoryPayload`; `supersedes` is 0 when the memory replaces none. */
  datatype Memory = Memory(id: nat, text: string, vector: Vec, tags: seq<string>, source: string, supersedes: nat)

  /** The journal is shared; events of other kinds are skipped by both scans. */
  datatype Event =
    | Remembered(tenant: Tenant, mem: Memory)
    | Forgot(tenant: Tenant, id: nat)
    | Other

  datatype Entry = Entry(tenant: Tenant, mem: Memory)

  predicate Matches(e: Entry, tenant: Tenant, id: nat) {
    e.tenant == tenant && e.mem.id == id
  }

  predicate Has(entries: seq<Entry>, tenant: Tenant, id: nat) {
    exists i :: 0 <= i < |entries| && Matches(entries[i], tenant, id)
  }

  /** `dropEntry`: without the first match, if there is one. */
  function Drop(entries: seq<Entry>, tenant: Tenant, id: nat): seq<Entry> {
    if entries == [] then []
    else if Matches(entries[0], tenant, id) then entries[1..]
    else [entries[0]] + Drop(entries[1..], tenant, id)
  }

  /** The live memories after a journal, event by event. */
  function Live(journal: seq<Event>): seq<Entry> {
    if journal == [] then []
    else
      var before, e := Live(journal[..|journal| - 1]), journal[|journal| - 1];
      match e
      case Remembered(tenant, mem) =>
        (if mem.supersedes != 0 then Drop(before, tenant, mem.supersedes) else before) + [Entry(tenant, mem)]
      case Forgot(tenant, id) => Drop(before, tenant, id)
      case Other => before
  }

  /** The next free id: ids start at 1. */
  function NextID(journal: seq<Event>): (next: nat)
    ensures next >= 1
  {
    if journal == [] then 1
    else
      var before, e := NextID(journal[..|journal| - 1]), journal[|journal| - 1];
      if e.Remembered? && e.mem.id >= before then e.mem.id + 1 else before
  }

  /** What the store allows at the end of a journal. */
  ghost predicate Allowed(journal: seq<Event>, e: Event, dim: nat) {
    match e
    case Remembered(tenant, mem) =>
      && mem.id == NextID(journal)
      && (mem.supersedes != 0 ==> Has(Live(journal), tenant, mem.supersedes))
      && |mem.vector| == dim
      && Tags.Normalized(mem.tags) == mem.tags
    case Forgot(tenant, id) => Has(Live(journal), tenant, id)
    case Other => true
  }

  /** A journal some run of the store wrote. */
  ghost predicate Written(journal: seq<Event>, dim: nat) {
    journal == [] || (
      var n := |journal| - 1;
      Written(journal[..n], dim) && Allowed(journal[..n], journal[n], dim))
  }

  // ---------------------------------------------------------------------------
  // Dropping

  lemma {:induction false} DropsCommute(entries: seq<Entry>, t: Tenant, a: nat, u: Tenant, b: nat)
    ensures Drop(Drop(entries, t, a), u, b) == Drop(Drop(entries, u, b), t, a)
  {
    if entries != [] {
      var rest := entries[1..];
      DropsCommute(rest, t, a, u, b);
      assert ([entries[0]] + Drop(rest, t, a))[1..] == Drop(rest, t, a);
      assert ([entries[0]] + Drop(rest, u, b))[1..] == Drop(rest, u, b);
    }
  }

  lemma {:induction false} DropBefore(entries: seq<Entry>, e: Entry, t: Tenant, id: nat)
    requires !Matches(e, t, id)
    ensures Drop(entries + [e], t, id) == Drop(entries, t, id) + [e]
  {
    if entries == [] {
      assert [] + [e] == [e];
      assert [e][1..] == [];
      assert Drop([e], t, id) == [e] + Drop([], t, id);
    } else {
      assert (entries + [e])[1..] == entries[1..] + [e];
      DropBefore(entries[1..], e, t, id);
    }
  }

  lemma {:induction false} DropAbsent(entries: seq<Entry>, t: Tenant, id: nat)
    requires !Has(entries, t, id)
    ensures Drop(entries, t, id) == entries
  {
    if entries != [] {
      assert !Matches(entries[0], t, id);
      forall i | 0 <= i < |entries[1..]|
        ensures !Matches(entries[1..][i], t, id)
      {
        assert entries[1..][i] == entries[i + 1];
      }
      DropAbsent(entries[1..], t, id);
    }
  }

  lemma {:induction false} DropFrom(entries: seq<Entry>, t: Tenant, id: nat)
    ensures forall e :: e in Drop(entries, t, id) ==> e in entries
  {
    if entries != [] {
      DropFrom(entries[1..], t, id);
    }
  }

  // ---------------------------------------------------------------------------
  // Ids

  /** Ids on record. */
  ghost predicate Recorded(journal: seq<Event>, id: nat) {
    exists i :: 0 <= i < |journal| && journal[i].Remembered? && journal[i].mem.id == id
  }

  lemma {:induction false} NextIDAbove(journal: seq<Event>)
    ensures forall id: nat :: Recorded(journal, id) ==> id < NextID(journal)
  {
    if journal != [] {
      var n := |journal| - 1;
      var front := journal[..n];
      NextIDAbove(front);
      forall id: nat | Recorded(journal, id)
        ensures id < NextID(journal)
      {
        var i :| 0 <= i < |journal| && journal[i].Remembered? && journal[i].mem.id == id;
        if i < n {
          assert front[i].mem.id == id;
          assert Recorded(front, id);
        }
      }
    }
  }

  /** In any run an id is given out once, whatever was forgotten, superseded or restarted in
      between. */
  lemma IdsNeverReused(journal: seq<Event>, dim: nat, i: nat, j: nat)
    requires Written(journal, dim) && i < j < |journal| && journal[i].Remembered? && journal[j].Remembered?
    ensures 1 <= journal[i].mem.id < journal[j].mem.id
  {
    hide NextID, Live;
    var front := journal[..j];
    WrittenPrefix(journal, dim, j);
    assert front[i] == journal[i];
    assert Recorded(front, journal[i].mem.id);
    NextIDAbove(front);
    WrittenPrefix(journal, dim, i);
  }

  lemma {:induction false} WrittenPrefix(journal: seq<Event>, dim: nat, i: nat)
    requires Written(journal, dim) && i < |journal|
    ensures Written(journal[..i], dim) && Allowed(journal[..i], journal[i], dim)
    decreases |journal|
  {
    hide Allowed;
    var n := |journal| - 1;
    if i < n {
      WrittenPrefix(journal[..n], dim, i);
      assert journal[..n][..i] == journal[..i];
    }
  }

  lemma {:induction false} LiveAreRecorded(journal: seq<Event>)
    ensures forall e :: e in Live(journal) ==> Recorded(journal, e.mem.id)
  {
    if journal != [] {
      var n := |journal| - 1;
      var front, last := journal[..n], journal[n];
      LiveAreRecorded(front);
      RecordedGrows(journal);
      match last
      case Remembered(t, mem) => DropFrom(Live(front), t, mem.supersedes);
      case Forgot(t, id) => DropFrom(Live(front), t, id);
      case Other =>
    }
  }

  lemma RecordedGrows(journal: seq<Event>)
    requires journal != []
    ensures forall id: nat :: Recorded(journal[..|journal| - 1], id) ==> Recorded(journal, id)
    ensures journal[|journal| - 1].Remembered? ==> Recorded(journal, journal[|journal| - 1].mem.id)
  {
    var front := journal[..|journal| - 1];
    forall id: nat | Recorded(front, id)
      ensures Recorded(journal, id)
    {
      var i :| 0 <= i < |front| && front[i].Remembered? && front[i].mem.id == id;
      assert journal[i] == front[i];
    }
  }

  // ---------------------------------------------------------------------------
  // Two passes

  /** The first pass of `New`: memories are added and then drop what they supersede;
      forgets are not looked at. */
  function PassOne(journal: seq<Event>): seq<Entry> {
    if journal == [] then []
    else
      var before, e := PassOne(journal[..|journal| - 1]), journal[|journal| - 1];
      if e.Remembered? then
        var added := before + [Entry(e.tenant, e.mem.(tags := Tags.Normalized(e.mem.tags)))];
        if e.mem.supersedes != 0 then Drop(added, e.tenant, e.mem.supersedes) else added
      else before
  }

  /** The second pass: the forgets, in order. */
  function PassTwo(entries: seq<Entry>, journal: seq<Event>): seq<Entry> {
    if journal == [] then entries
    else
      var before, e := PassTwo(entries, journal[..|journal| - 1]), journal[|journal| - 1];
      if e.Forgot? then Drop(before, e.tenant, e.id) else before
  }

  lemma {:induction false} PassTwoAfterDrop(entries: seq<Entry>, t: Tenant, id: nat, journal: seq<Event>)
    ensures PassTwo(Drop(entries, t, id), journal) == Drop(PassTwo(entries, journal), t, id)
  {
    hide Drop;
    if journal != [] {
      var n := |journal| - 1;
      PassTwoAfterDrop(entries, t, id, journal[..n]);
      if journal[n].Forgot? {
        DropsCommute(PassTwo(entries, journal[..n]), t, id, journal[n].tenant, journal[n].id);
      }
    }
  }

  /** A memory is not forgotten before it exists. */
  ghost predicate NeverForgotten(journal: seq<Event>, e: Entry) {
    forall i :: 0 <= i < |journal| && journal[i].Forgot? ==> !Matches(e, journal[i].tenant, journal[i].id)
  }

  lemma {:induction false} PassTwoBefore(entries: seq<Entry>, e: Entry, journal: seq<Event>)
    requires NeverForgotten(journal, e)
    ensures PassTwo(entries + [e], journal) == PassTwo(entries, journal) + [e]
  {
    hide Drop;
    if journal != [] {
      var n := |journal| - 1;
      assert forall i :: 0 <= i < n ==> journal[..n][i] == journal[i];
      PassTwoBefore(entries, e, journal[..n]);
      if journal[n].Forgot? {
        DropBefore(PassTwo(entries, journal[..n]), e, journal[n].tenant, journal[n].id);
      }
    }
  }

  lemma NewIsNotForgotten(journal: seq<Event>, dim: nat, e: Entry)
    requires Written(journal, dim) && e.mem.id == NextID(journal)
    ensures NeverForgotten(journal, e)
  {
    hide NextID, Live, Written;
    NextIDAbove(journal);
    forall i | 0 <= i < |journal| && journal[i].Forgot?
      ensures !Matches(e, journal[i].tenant, journal[i].id)
    {
      var front := journal[..i];
      WrittenPrefix(journal, dim, i);
      var k :| 0 <= k < |Live(front)| && Matches(Live(front)[k], journal[i].tenant, journal[i].id);
      LiveAreRecorded(front);
      assert Live(front)[k] in Live(front);
      var m :| 0 <= m < |front| && front[m].Remembered? && front[m].mem.id == journal[i].id;
      assert journal[m] == front[m];
      assert Recorded(journal, journal[i].id);
    }
  }

  lemma SupersededIsOlder(journal: seq<Event>, tenant: Tenant, id: nat)
    requires Has(Live(journal), tenant, id)
    ensures id < NextID(journal)
  {
    hide Live, NextID;
    LiveAreRecorded(journal);
    NextIDAbove(journal);
    var k :| 0 <= k < |Live(journal)| && Matches(Live(journal)[k], tenant, id);
    assert Live(journal)[k] in Live(journal);
  }

  /** Rebuilding finds the live memories, in the same order. */
  lemma {:induction false} TwoPassesAreLive(journal: seq<Event>, dim: nat)
    requires Written(journal, dim)
    ensures PassTwo(PassOne(journal), journal) == Live(journal)
  {
    hide Drop, NextID, Has;
    if journal != [] {
      var n := |journal| - 1;
      var front, last := journal[..n], journal[n];
      TwoPassesAreLive(front, dim);
      if last.Remembered? {
        var e, sup := Entry(last.tenant, last.mem), last.mem.supersedes;
        NewIsNotForgotten(front, dim, e);
        assert e == Entry(last.tenant, last.mem.(tags := Tags.Normalized(last.mem.tags)));
        PassTwoBefore(PassOne(front), e, front);
        if sup != 0 {
          SupersededIsOlder(front, last.tenant, sup);
          DropBefore(PassOne(front), e, last.tenant, sup);
          PassTwoAfterDrop(PassOne(front), last.tenant, sup, front);
          PassTwoBefore(Drop(PassOne(front), last.tenant, sup), e, front);
        }
      }
    }
  }

  lemma {:induction false} LiveFit(journal: seq<Event>, dim: nat)
    requires Written(journal, dim)
    ensures forall e :: e in Live(journal) ==> |e.mem.vector| == dim
  {
    hide NextID;
    if journal != [] {
      var n := |journal| - 1;
      var front, last := journal[..n], journal[n];
      LiveFit(front, dim);
      match last
      case Remembered(t, mem) => DropFrom(Live(front), t, mem.supersedes);
      case Forgot(t, id) => DropFrom(Live(front), t, id);
      case Other =>
    }
  }
}
