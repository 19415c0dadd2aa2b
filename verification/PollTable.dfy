/** The poll and select protocol of the file system: which poll handles are held for which file
    and client, and which clients have reached the end of what they read. */
module PollTable {

  type Handle = nat            // a fuse_pollhandle pointer
  const NULL: Handle := 0

  datatype File = File(plugin: string, path: string)
  datatype Context = NoContext | Context(id: string)

  type Clients = map<string, Handle>

  datatype Table = Table(
    handles: map<File, Clients>,   // mPollHandles
    eof: map<string, bool>,        // mEofReached
    notified: multiset<Handle>,    // arguments of fuse_notify_poll so far
    destroyed: multiset<Handle>)   // arguments of fuse_pollhandle_destroy so far

  const EMPTY := Table(map[], map[], multiset{}, multiset{})

  datatype Event =
    | Read(ctx: Context, result: int, size: nat)   // readCallback on a file of a plugin
    | Register(file: File, ctx: Context, handle: Handle)
    | Notify(file: File)

  // result < size compares as unsigned numbers: a negative result is not short.
  predicate IsShort(result: int, size: nat) {
    0 <= result < size
  }

  function Held(t: Table, file: File): Clients {
    if file in t.handles then t.handles[file] else map[]
  }

  predicate AtEof(t: Table, id: string) {
    id in t.eof && t.eof[id]
  }

  predicate Registers(e: Event) {
    e.Register? && e.ctx.Context? && e.handle != NULL
  }

  // Whether the registration is answered with POLLIN.
  predicate GivesPollIn(t: Table, e: Event) {
    Registers(e) && !AtEof(t, e.ctx.id)
  }

  // The handles in a client map, each as often as it occurs.
  ghost function HandlesOf(m: Clients): multiset<Handle> {
    if m == map[] then multiset{}
    else
      var id :| id in m;
      HandlesOf(m - {id}) + multiset{m[id]}
  }

  lemma {:induction false} HandlesWithout(m: Clients, id: string)
    requires id in m
    ensures HandlesOf(m) == HandlesOf(m - {id}) + multiset{m[id]}
    decreases |m|
  {
    var first :| first in m && HandlesOf(m) == HandlesOf(m - {first}) + multiset{m[first]};
    if first != id {
      var rest := m - {first} - {id};
      assert rest == m - {id} - {first};
      HandlesWithout(m - {first}, id);
      HandlesWithout(m - {id}, first);
      AddsInAnyOrder(HandlesOf(rest), m[id], m[first]);
    }
  }

  lemma AddsInAnyOrder(s: multiset<Handle>, a: Handle, b: Handle)
    ensures s + multiset{a} + multiset{b} == s + multiset{b} + multiset{a}
  {
  }

  predicate Injective(m: Clients) {
    forall a, b | a in m && b in m && m[a] == m[b] :: a == b
  }

  lemma {:induction false} HandlesOfInjective(m: Clients, h: Handle)
    requires Injective(m)
    ensures HandlesOf(m)[h] == if exists id :: id in m && m[id] == h then 1 else 0
    decreases |m|
  {
    if m != map[] {
      var first :| first in m && HandlesOf(m) == HandlesOf(m - {first}) + multiset{m[first]};
      HandlesOfInjective(m - {first}, h);
      if id :| id in m && m[id] == h {
        assert id == first || id in m - {first};
      }
    }
  }

  function NotAtEof(clients: Clients): map<string, bool> {
    map id | id in clients :: false
  }

  ghost function Next(t: Table, e: Event): Table {
    match e
    case Read(ctx, result, size) =>
      if ctx.NoContext? then t else t.(eof := t.eof[ctx.id := IsShort(result, size)])
    case Register(file, ctx, handle) =>
      if !Registers(e) then t
      else
        var clients := Held(t, file);
        t.(handles := t.handles[file := clients[ctx.id := handle]],
           destroyed := t.destroyed + if ctx.id in clients then multiset{clients[ctx.id]} else multiset{})
    case Notify(file) =>
      if file !in t.handles then t
      else
        var clients := t.handles[file];
        Table(t.handles[file := map[]],
              t.eof + NotAtEof(clients),
              t.notified + HandlesOf(clients),
              t.destroyed + HandlesOf(clients))
  }

  ghost function After(es: seq<Event>): Table {
    if es == [] then EMPTY else Next(After(es[..|es| - 1]), es[|es| - 1])
  }

  /* ---- when a registration is answered with POLLIN, read off the trace ---- */

  // The client was given less than it asked for. A negative result is an error, and counts as more.
  predicate ReadsShort(e: Event, id: string) {
    e.Read? && e.ctx == Context(id) && 0 <= e.result && e.result < e.size
  }

  predicate ReadsLong(e: Event, id: string) {
    e.Read? && e.ctx == Context(id) && (e.result < 0 || e.size <= e.result)
  }

  predicate RegistersFor(e: Event, file: File, id: string) {
    Registers(e) && e.file == file && e.ctx.id == id
  }

  // The client has registered for the file and nobody has notified the file since.
  ghost predicate HoldsAt(es: seq<Event>, n: nat, file: File, id: string)
    requires n <= |es|
  {
    exists i: nat | i < n :: RegistersFor(es[i], file, id) && forall j | i < j < n :: es[j] != Notify(file)
  }

  // The n-th event tells the client that there is something to read again.
  ghost predicate Revives(es: seq<Event>, n: nat, id: string)
    requires n < |es|
  {
    ReadsLong(es[n], id) || (es[n].Notify? && HoldsAt(es, n, es[n].file, id))
  }

  // A short read of the client that nothing has superseded.
  ghost predicate Exhausted(es: seq<Event>, id: string) {
    exists i: nat | i < |es| :: ReadsShort(es[i], id) && forall j | i < j < |es| :: !Revives(es, j, id)
  }

  lemma HoldsAtPrefix(es: seq<Event>, more: seq<Event>, n: nat, file: File, id: string)
    requires n <= |es|
    ensures HoldsAt(es + more, n, file, id) <==> HoldsAt(es, n, file, id)
  {
    var all := es + more;
    if HoldsAt(es, n, file, id) {
      var i: nat :| i < n && RegistersFor(es[i], file, id) && forall j | i < j < n :: es[j] != Notify(file);
      assert RegistersFor(all[i], file, id) && forall j | i < j < n :: all[j] == es[j];
    }
    if HoldsAt(all, n, file, id) {
      var i: nat :| i < n && RegistersFor(all[i], file, id) && forall j | i < j < n :: all[j] != Notify(file);
      assert RegistersFor(es[i], file, id) && forall j | i < j < n :: es[j] == all[j];
    }
  }

  lemma HoldsAfterOneMore(es: seq<Event>, e: Event, file: File, id: string)
    ensures HoldsAt(es + [e], |es| + 1, file, id)
      <==> RegistersFor(e, file, id) || (e != Notify(file) && HoldsAt(es, |es|, file, id))
  {
    var all := es + [e];
    if RegistersFor(e, file, id) {
      assert RegistersFor(all[|es|], file, id);
    }
    if e != Notify(file) && HoldsAt(es, |es|, file, id) {
      var i: nat :| i < |es| && RegistersFor(es[i], file, id) && forall j | i < j < |es| :: es[j] != Notify(file);
      assert RegistersFor(all[i], file, id);
    }
    if HoldsAt(all, |es| + 1, file, id) && !RegistersFor(e, file, id) {
      var i: nat :|
        i < |es| + 1 && RegistersFor(all[i], file, id) && forall j | i < j < |es| + 1 :: all[j] != Notify(file);
      assert i < |es| && RegistersFor(es[i], file, id);
      assert all[|es|] != Notify(file);
      assert forall j | i < j < |es| :: es[j] == all[j];
    }
  }

  lemma {:induction false} HeldMeansHoldsAt(es: seq<Event>, file: File, id: string)
    ensures id in Held(After(es), file) <==> HoldsAt(es, |es|, file, id)
  {
    if es != [] {
      var before, e := es[..|es| - 1], es[|es| - 1];
      HeldMeansHoldsAt(before, file, id);
      assert es == before + [e];
      HoldsAfterOneMore(before, e, file, id);
    }
  }

  lemma ExhaustedAfterOneMore(es: seq<Event>, e: Event, id: string)
    ensures Exhausted(es + [e], id) <==> ReadsShort(e, id) || (!Revives(es + [e], |es|, id) && Exhausted(es, id))
  {
    var all := es + [e];
    forall j: nat | j < |es| ensures Revives(all, j, id) <==> Revives(es, j, id) {
      if es[j].Notify? {
        HoldsAtPrefix(es, [e], j, es[j].file, id);
      }
    }
    if ReadsShort(e, id) {
      assert ReadsShort(all[|es|], id);
    }
    if !Revives(all, |es|, id) && Exhausted(es, id) {
      var i: nat :| i < |es| && ReadsShort(es[i], id) && forall j | i < j < |es| :: !Revives(es, j, id);
      assert ReadsShort(all[i], id);
    }
    if Exhausted(all, id) && !ReadsShort(e, id) {
      var i: nat :| i < |all| && ReadsShort(all[i], id) && forall j | i < j < |all| :: !Revives(all, j, id);
      assert i < |es| && ReadsShort(es[i], id);
    }
  }

  lemma {:induction false} EofMeansExhausted(es: seq<Event>, id: string)
    ensures AtEof(After(es), id) <==> Exhausted(es, id)
  {
    if es != [] {
      var before, e := es[..|es| - 1], es[|es| - 1];
      EofMeansExhausted(before, id);
      assert es == before + [e];
      ExhaustedAfterOneMore(before, e, id);
      if e.Notify? {
        HeldMeansHoldsAt(before, e.file, id);
        HoldsAtPrefix(before, [e], |before|, e.file, id);
      }
    }
  }

  /** A registration is answered with POLLIN if and only if the client has no short read later
      than both its last other read and the last notification of a file that it then held a
      handle for. */
  lemma PollInCharacterised(es: seq<Event>, e: Event)
    requires Registers(e)
    ensures GivesPollIn(After(es), e) <==> !Exhausted(es, e.ctx.id)
  {
    EofMeansExhausted(es, e.ctx.id);
  }

  /** For instance right after a read: if and only if that was an error or filled the buffer. */
  lemma PollInAfterRead(es: seq<Event>, read: Event, e: Event)
    requires Registers(e) && read.Read? && read.ctx == e.ctx
    ensures GivesPollIn(After(es + [read]), e) <==> read.result < 0 || read.size <= read.result
  {
    assert (es + [read])[..|es|] == es;
  }

  /** A registration without a context or a handle is given no POLLIN and changes nothing, and so
      does a read without a context. */
  lemma AnonymousChangesNothing(t: Table, e: Event)
    requires !e.Notify?
    requires e.ctx == NoContext || (e.Register? && e.handle == 0)
    ensures Next(t, e) == t && !GivesPollIn(t, e)
  {
  }

  /* ---- every registered handle is destroyed once or still held ---- */

  // The handle is registered under the file and the client.
  predicate Holds(t: Table, file: File, id: string, h: Handle) {
    file in t.handles && id in t.handles[file] && t.handles[file][id] == h
  }

  ghost predicate IsHeld(t: Table, h: Handle) {
    exists f, id :: Holds(t, f, id, h)
  }

  // No handle is registered under two files or clients at a time.
  ghost predicate Unique(t: Table) {
    forall f, id, g, jd, h | Holds(t, f, id, h) && Holds(t, g, jd, h) :: f == g && id == jd
  }

  // How many registrations of the handle the table accounts for: it was destroyed, or is held.
  ghost function Accounted(t: Table, h: Handle): nat {
    t.destroyed[h] + if IsHeld(t, h) then 1 else 0
  }

  /** Any other registration holds its handle for its file and client, destroys the one it replaces,
      if any, and leaves everything else, in particular the flags. */
  lemma RegisterReplaces(t: Table, e: Event)
    requires e.Register? && e.ctx.Context? && e.handle != 0
    ensures var u, id := Next(t, e), e.ctx.id;
            && (forall f, jd, h :: Holds(u, f, jd, h)
                  <==> if f == e.file && jd == id then h == e.handle else Holds(t, f, jd, h))
            && u.eof == t.eof && u.notified == t.notified
            && (forall h :: u.destroyed[h] == t.destroyed[h] + if Holds(t, e.file, id, h) then 1 else 0)
  {
    var u := Next(t, e);
    forall f, jd, h
      ensures Holds(u, f, jd, h)
        <==> if f == e.file && jd == e.ctx.id then h == e.handle else Holds(t, f, jd, h)
    {
    }
  }

  lemma RegisterAccounts(t: Table, e: Event)
    requires Unique(t) && Registers(e) && !IsHeld(t, e.handle)
    ensures Unique(Next(t, e))
    ensures forall h :: Accounted(Next(t, e), h) == Accounted(t, h) + if h == e.handle then 1 else 0
  {
    var u, clients := Next(t, e), Held(t, e.file);
    forall f, id, h
      ensures Holds(u, f, id, h) <==>
              if f == e.file && id == e.ctx.id then h == e.handle else Holds(t, f, id, h)
    {
    }
    if e.ctx.id in clients {
      assert Holds(t, e.file, e.ctx.id, clients[e.ctx.id]);
    }
    forall h ensures Accounted(u, h) == Accounted(t, h) + if h == e.handle then 1 else 0 {
      if h == e.handle {
        assert Holds(u, e.file, e.ctx.id, h);
      } else if Holds(t, e.file, e.ctx.id, h) {
        assert clients[e.ctx.id] == h && !IsHeld(u, h);
      } else {
        assert IsHeld(t, h) <==> IsHeld(u, h) by {
          if f, id :| Holds(t, f, id, h) {
            assert Holds(u, f, id, h);
          }
          if f, id :| Holds(u, f, id, h) {
            assert Holds(t, f, id, h);
          }
        }
      }
    }
  }

  /** A notification wakes and destroys exactly the handles of its own file and moves no other. */
  lemma NotifyAccounts(t: Table, file: File)
    requires Unique(t)
    ensures var u := Next(t, Notify(file));
            && Unique(u)
            && (forall h :: Accounted(u, h) == Accounted(t, h))
            && (forall f, id, h :: Holds(u, f, id, h) <==> f != file && Holds(t, f, id, h))
            && (forall h :: u.destroyed[h] == t.destroyed[h] + if exists id :: Holds(t, file, id, h) then 1 else 0)
            && (forall h :: u.notified[h] == t.notified[h] + if exists id :: Holds(t, file, id, h) then 1 else 0)
  {
    var u := Next(t, Notify(file));
    if file in t.handles {
      var clients := t.handles[file];
      assert Injective(clients) by {
        forall a, b | a in clients && b in clients && clients[a] == clients[b] ensures a == b {
          assert Holds(t, file, a, clients[a]) && Holds(t, file, b, clients[b]);
        }
      }
      forall h
        ensures HandlesOf(clients)[h] == if exists id :: Holds(t, file, id, h) then 1 else 0
      {
        HandlesOfInjective(clients, h);
        if id :| id in clients && clients[id] == h {
          assert Holds(t, file, id, h);
        }
      }
    }
    forall f, id, h ensures Holds(u, f, id, h) <==> f != file && Holds(t, f, id, h) {
    }
    forall h ensures Accounted(u, h) == Accounted(t, h) {
      if f, id :| Holds(t, f, id, h) {
        assert f == file || Holds(u, f, id, h);
      }
      if f, id :| Holds(u, f, id, h) {
        assert Holds(t, f, id, h);
      }
    }
  }

  lemma ReadAccounts(t: Table, e: Event)
    requires Unique(t) && e.Read?
    ensures Unique(Next(t, e)) && forall h :: Accounted(Next(t, e), h) == Accounted(t, h)
  {
    forall f, id, h ensures Holds(Next(t, e), f, id, h) <==> Holds(t, f, id, h) {
    }
  }

  function Registrations(es: seq<Event>, h: Handle): nat {
    if es == [] then 0
    else
      var e := es[|es| - 1];
      Registrations(es[..|es| - 1], h) + if Registers(e) && e.handle == h then 1 else 0
  }

  // fuse does not hand out a handle that has yet to be destroyed. It may reuse the address after.
  ghost predicate RegistersOnlyFree(es: seq<Event>) {
    es == [] ||
    var before, e := es[..|es| - 1], es[|es| - 1];
    RegistersOnlyFree(before) && (Registers(e) ==> !IsHeld(After(before), e.handle))
  }

  /** Every registration of a handle is followed by exactly one destruction or is the one under
      which the handle is still held, by exactly one file and client: never both, none lost. */
  lemma {:induction false} HandlesAreConserved(es: seq<Event>)
    requires RegistersOnlyFree(es)
    ensures Unique(After(es))
    ensures forall h :: Accounted(After(es), h) == Registrations(es, h)
  {
    if es != [] {
      var before, e := es[..|es| - 1], es[|es| - 1];
      HandlesAreConserved(before);
      match e {
        case Register(_, _, _) =>
          if Registers(e) {
            RegisterAccounts(After(before), e);
          }
        case Notify(file) => NotifyAccounts(After(before), file);
        case Read(_, _, _) => ReadAccounts(After(before), e);
      }
    }
  }

  /** In particular where every registration brings a handle of its own. */
  lemma {:induction false} OwnHandlesAreFree(es: seq<Event>)
    requires forall h :: Registrations(es, h) <= 1
    ensures RegistersOnlyFree(es)
  {
    if es != [] {
      var before, e := es[..|es| - 1], es[|es| - 1];
      forall h ensures Registrations(before, h) <= 1 {
        assert Registrations(es, h) <= 1;
      }
      OwnHandlesAreFree(before);
      HandlesAreConserved(before);
      if Registers(e) {
        assert Registrations(es, e.handle) <= 1;
        assert Accounted(After(before), e.handle) == Registrations(before, e.handle) == 0;
      }
    }
  }

  /* ---- the maps, changed in place ---- */

  // One turn of the loop of `notifyPoll`.
  function NotifiedOne(t: Table, file: File, id: string): Table
    requires file in t.handles && id in t.handles[file]
  {
    Table(t.handles[file := t.handles[file] - {id}],
          t.eof[id := false],
          t.notified + multiset{t.handles[file][id]},
          t.destroyed + multiset{t.handles[file][id]})
  }

  /** Whichever client the loop takes first, the rest of the notification is the same. */
  lemma NotifyOneFirst(t: Table, file: File, id: string)
    requires file in t.handles && id in t.handles[file]
    ensures Next(NotifiedOne(t, file, id), Notify(file)) == Next(t, Notify(file))
  {
    var clients := t.handles[file];
    HandlesWithout(clients, id);
    LastUpdateCounts(t.handles, file, clients - {id}, map[]);
    ClearsInAnyOrder(t.eof, clients, id);
    AddsInOrder(t.notified, clients[id], HandlesOf(clients - {id}));
    AddsInOrder(t.destroyed, clients[id], HandlesOf(clients - {id}));
  }

  lemma LastUpdateCounts(m: map<File, Clients>, file: File, a: Clients, b: Clients)
    ensures m[file := a][file := b] == m[file := b]
  {
  }

  lemma ClearsInAnyOrder(eof: map<string, bool>, clients: Clients, id: string)
    requires id in clients
    ensures eof[id := false] + NotAtEof(clients - {id}) == eof + NotAtEof(clients)
  {
  }

  lemma AddsInOrder(s: multiset<Handle>, a: Handle, m: multiset<Handle>)
    ensures s + multiset{a} + m == s + (m + multiset{a})
  {
  }

  lemma NothingToNotify(t: Table, file: File)
    requires file in t.handles && t.handles[file] == map[]
    ensures Next(t, Notify(file)) == t
  {
    assert t.handles[file := map[]] == t.handles;
    assert t.eof + NotAtEof(t.handles[file]) == t.eof;
  }

  class Poll {
    var pollHandles: map<File, Clients>
    var eofReached: map<string, bool>
    ghost var notified: multiset<Handle>
    ghost var destroyed: multiset<Handle>

    ghost function Contents(): Table
      reads this
    {
      Table(pollHandles, eofReached, notified, destroyed)
    }

    constructor ()
      ensures Contents() == EMPTY
    {
      pollHandles, eofReached, notified, destroyed := map[], map[], multiset{}, multiset{};
    }

    // fuse_notify_poll
    method Wake(h: Handle)
      modifies this`notified
      ensures notified == old(notified) + multiset{h}
    {
      notified := notified + multiset{h};
    }

    // fuse_pollhandle_destroy
    method Destroy(h: Handle)
      modifies this`destroyed
      ensures destroyed == old(destroyed) + multiset{h}
    {
      destroyed := destroyed + multiset{h};
    }

    // The end of `readCallback` for a file of a plugin.
    method ReadCallback(ctx: Context, result: int, size: nat)
      modifies this
      ensures Contents() == Next(old(Contents()), Read(ctx, result, size))
    {
      if ctx.NoContext? {
        return;
      }
      eofReached := eofReached[ctx.id := IsShort(result, size)];
    }

    // The old handle is erased from a copy of the inner map; what replaces it is the assignment.
    method RegisterPoll(file: File, ctx: Context, ph: Handle) returns (pollIn: bool)
      modifies this
      ensures Contents() == Next(old(Contents()), Register(file, ctx, ph))
      ensures pollIn == GivesPollIn(old(Contents()), Register(file, ctx, ph))
    {
      if ctx.NoContext? {
        return false;
      }
      if ph == NULL {
        return false;
      }
      if file in pollHandles {
        var contextMap := pollHandles[file];
        if ctx.id in contextMap {
          Destroy(contextMap[ctx.id]);
          contextMap := contextMap - {ctx.id};
        }
      }
      var inner := if file in pollHandles then pollHandles[file] else map[];
      pollHandles := pollHandles[file := inner[ctx.id := ph]];
      pollIn := ctx.id !in eofReached || !eofReached[ctx.id];
    }

    method NotifyPoll(file: File)
      modifies this
      ensures Contents() == Next(old(Contents()), Notify(file))
    {
      if file !in pollHandles {
        return;
      }
      while pollHandles[file] != map[]
        invariant file in pollHandles
        invariant Next(Contents(), Notify(file)) == Next(old(Contents()), Notify(file))
        decreases |pollHandles[file]|
      {
        var ctx :| ctx in pollHandles[file];
        NotifyOneFirst(Contents(), file, ctx);
        var handle := pollHandles[file][ctx];
        eofReached := eofReached[ctx := false];
        Wake(handle);
        Destroy(handle);
        pollHandles := pollHandles[file := pollHandles[file] - {ctx}];
      }
      NothingToNotify(Contents(), file);
    }
  }
}
