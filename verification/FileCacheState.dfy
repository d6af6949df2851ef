// The state of the open file cache of ngx_open_file_cache.c: the cached entries, their
// index by name, the queue from the most to the least recently used, the open
// descriptors, and the users that still hold an entry.

module FileCacheState {
  import opened ByteStrings
  import opened Ring

  type Name = CString

  const INVALID: int := -1

  // `close` marks an entry that has left the index and goes with its last user.
  datatype Entry = Entry(name: Name, created: int, accessed: int, fd: int, uniq: nat, err: nat, uses: nat,
                         count: nat, close: bool, isDir: bool)

  type Entries = map<nat, Entry>

  type Index = map<Name, nat>

  type Owners = map<int, nat>

  ghost predicate Listed(entries: Entries, index: Index, id: nat) {
    id in entries && entries[id].name in index && index[entries[id].name] == id
  }

  ghost predicate IsFile(e: Entry) {
    e.err == 0 && !e.isDir
  }

  // An entry with an error, or of a directory, holds no descriptor and has no users. An
  // entry with users has its descriptor open. An entry outside the index is marked, and
  // has users. The flags of an entry with an error may be anything.
  ghost predicate EntryOk(entries: Entries, index: Index, owner: Owners, users: multiset<nat>, id: nat)
    requires id in entries
  {
    var e := entries[id];
    && e.count == users[id]
    && (!IsFile(e) ==> e.count == 0 && e.fd == INVALID && Listed(entries, index, id))
    && (e.count > 0 ==> e.fd != INVALID)
    && (e.fd != INVALID ==> e.fd in owner && owner[e.fd] == id)
    && (if Listed(entries, index, id) then IsFile(e) ==> !e.close else e.close && e.count > 0)
  }

  ghost predicate EntriesOk(entries: Entries, index: Index, owner: Owners, users: multiset<nat>, next: nat) {
    && (forall id {:trigger EntryOk(entries, index, owner, users, id)} :: id in entries ==>
          id < next && EntryOk(entries, index, owner, users, id))
    && (forall id {:trigger users[id]} :: id in users ==> id in entries)
  }

  // The queue holds exactly the entries of the index, but for those in `loose`.
  ghost predicate IndexOk(entries: Entries, index: Index, queue: seq<nat>, loose: set<nat>) {
    && Distinct(queue)
    && (forall id :: id in queue ==> Listed(entries, index, id) && id !in loose)
    && (forall id :: id in loose ==> Listed(entries, index, id))
    && (forall n {:trigger index[n]} :: n in index ==>
          index[n] in entries && entries[index[n]].name == n && (index[n] in queue || index[n] in loose))
  }

  // The open descriptors are those of the entries, each of one entry, and `pending` ones.
  ghost predicate FdsOk(entries: Entries, open: set<int>, owner: Owners, pending: set<int>) {
    && INVALID !in open && open == owner.Keys + pending && owner.Keys !! pending
    && forall fd :: fd in owner ==> owner[fd] in entries && entries[owner[fd]].fd == fd
  }

  ghost predicate Inv(entries: Entries, index: Index, queue: seq<nat>, next: nat, open: set<int>, owner: Owners,
                      users: multiset<nat>, loose: set<nat>, pending: set<int>) {
    && EntriesOk(entries, index, owner, users, next) && IndexOk(entries, index, queue, loose)
    && FdsOk(entries, open, owner, pending)
  }

  // -------- queue --------

  function Without(queue: seq<nat>, id: nat): seq<nat> {
    if queue == [] then []
    else if queue[0] == id then queue[1..]
    else [queue[0]] + Without(queue[1..], id)
  }

  lemma {:induction false} WithoutFacts(queue: seq<nat>, id: nat)
    requires Distinct(queue)
    ensures Distinct(Without(queue, id)) && id !in Without(queue, id)
    ensures forall x :: x in Without(queue, id) <==> x in queue && x != id
  {
    if queue != [] {
      var rest := queue[1..];
      WithoutFacts(rest, id);
      assert queue == [queue[0]] + rest;
      assert queue[0] !in rest;
      if queue[0] != id {
        ConsDistinct(queue[0], Without(rest, id));
      }
    }
  }

  lemma ConsDistinct(x: nat, queue: seq<nat>)
    requires Distinct(queue) && x !in queue
    ensures Distinct([x] + queue)
    ensures forall y :: y in [x] + queue <==> y == x || y in queue
  {
    var q := [x] + queue;
    forall i, j | 0 <= i < j < |q|
      ensures q[i] != q[j]
    {
      assert q[j] == queue[j - 1] && (i > 0 ==> q[i] == queue[i - 1]);
    }
  }

  // -------- steps --------

  // An entry leaves the queue, and is loose.
  lemma Loosen(entries: Entries, index: Index, queue: seq<nat>, id: nat)
    requires IndexOk(entries, index, queue, {}) && Listed(entries, index, id)
    ensures IndexOk(entries, index, Without(queue, id), {id})
  {
    WithoutFacts(queue, id);
  }

  // A loose entry goes to the head of the queue.
  lemma Fasten(entries: Entries, index: Index, queue: seq<nat>, id: nat)
    requires IndexOk(entries, index, queue, {id})
    ensures IndexOk(entries, index, [id] + queue, {})
  {
    ConsDistinct(id, queue);
  }

  // A loose entry is replaced by one of the same name, for which `owner'` and `users'`
  // speak; the others keep their descriptors and users.
  lemma Replace(entries: Entries, index: Index, queue: seq<nat>, next: nat, open: set<int>, owner: Owners,
                users: multiset<nat>, loose: set<nat>, pending: set<int>, id: nat, e: Entry, owner': Owners,
                users': multiset<nat>, open': set<int>, pending': set<int>)
    requires Inv(entries, index, queue, next, open, owner, users, loose, pending)
    requires id in entries && e.name == entries[id].name
    requires forall x :: x != id ==> users'[x] == users[x]
    requires EntryOk(entries[id := e], index, owner', users', id)
    requires owner' == (if e.fd == INVALID then owner - {entries[id].fd} else (owner - {entries[id].fd})[e.fd := id])
    requires INVALID !in open' && open' == owner'.Keys + pending' && owner'.Keys !! pending'
    requires e.fd in owner ==> owner[e.fd] == id
    ensures Inv(entries[id := e], index, queue, next, open', owner', users', loose, pending')
  {
    var entries' := entries[id := e];
    assert EntryOk(entries, index, owner, users, id);
    forall x | x in entries'
      ensures x < next && EntryOk(entries', index, owner', users', x)
    {
      assert EntryOk(entries, index, owner, users, x);
      if x != id {
        assert entries'[x] == entries[x] && (Listed(entries', index, x) <==> Listed(entries, index, x));
      }
    }
    assert forall x :: x != id ==> (Listed(entries', index, x) <==> Listed(entries, index, x));
    assert Listed(entries', index, id) <==> Listed(entries, index, id);
    forall x | x in users'
      ensures x in entries'
    {
      assert x != id ==> users'[x] == users[x];
    }
    forall fd | fd in owner'
      ensures owner'[fd] in entries' && entries'[owner'[fd]].fd == fd
    {
      if fd != e.fd {
        assert fd in owner && fd != entries[id].fd;
      }
    }
  }

  // An entry leaves the index; it is loose, and is marked.
  lemma Unlist(entries: Entries, index: Index, queue: seq<nat>, next: nat, open: set<int>, owner: Owners,
               users: multiset<nat>, pending: set<int>, id: nat)
    requires Inv(entries, index, queue, next, open, owner, users, {id}, pending)
    requires id in entries && entries[id].count > 0
    ensures Listed(entries, index, id)
    ensures Inv(entries[id := entries[id].(close := true)], index - {entries[id].name}, queue, next, open, owner, users,
                {}, pending)
  {
    var e := entries[id];
    var entries', index' := entries[id := e.(close := true)], index - {e.name};
    assert EntryOk(entries, index, owner, users, id);
    forall x | x in entries && x != id
      ensures Listed(entries', index', x) <==> Listed(entries, index, x)
    {
    }
    forall x | x in entries'
      ensures x < next && EntryOk(entries', index', owner, users, x)
    {
      assert EntryOk(entries, index, owner, users, x);
    }
    assert index'.Keys == index.Keys - {e.name};
  }

  // An entry without users leaves the index and is freed; its descriptor has been closed.
  lemma Free(entries: Entries, index: Index, queue: seq<nat>, next: nat, open: set<int>, owner: Owners,
             users: multiset<nat>, pending: set<int>, id: nat)
    requires Inv(entries, index, queue, next, open, owner, users, {id}, pending)
    requires id in entries && entries[id].count == 0
    ensures Listed(entries, index, id)
    ensures Inv(entries - {id}, index - {entries[id].name}, queue, next, open - {entries[id].fd},
                owner - {entries[id].fd}, users, {}, pending)
    ensures if entries[id].fd != INVALID then entries[id].fd in open else open - {entries[id].fd} == open
  {
    var e := entries[id];
    var entries', index', owner' := entries - {id}, index - {e.name}, owner - {e.fd};
    assert EntryOk(entries, index, owner, users, id);
    forall x | x in entries'
      ensures x < next && EntryOk(entries', index', owner', users, x)
    {
      assert EntryOk(entries, index, owner, users, x);
      assert Listed(entries', index', x) <==> Listed(entries, index, x);
    }
    assert index'.Keys == index.Keys - {e.name};
    forall x | x in users
      ensures x in entries'
    {
      assert users[x] > 0;
    }
    assert forall x :: x in queue ==> x != id;
    assert e.fd !in pending;
  }

  // A marked entry goes with its last user.
  lemma FreeDetached(entries: Entries, index: Index, queue: seq<nat>, next: nat, open: set<int>, owner: Owners,
                     users: multiset<nat>, id: nat)
    requires Inv(entries, index, queue, next, open, owner, users, {}, {})
    requires id in entries && !Listed(entries, index, id) && entries[id].count == 1
    ensures entries[id].fd in open
    ensures Inv(entries - {id}, index, queue, next, open - {entries[id].fd}, owner - {entries[id].fd},
                users - multiset{id}, {}, {})
  {
    var e := entries[id];
    var entries', owner', users' := entries - {id}, owner - {e.fd}, users - multiset{id};
    assert EntryOk(entries, index, owner, users, id);
    forall x | x in entries'
      ensures x < next && EntryOk(entries', index, owner', users', x)
    {
      assert EntryOk(entries, index, owner, users, x);
      assert Listed(entries', index, x) <==> Listed(entries, index, x);
    }
    forall x | x in users'
      ensures x in entries'
    {
      assert users'[x] > 0 && (x != id ==> users[x] > 0);
    }
    assert forall n :: n in index ==> index[n] != id;
  }

  // A new entry is listed under a name that was not.
  lemma Enter(entries: Entries, index: Index, queue: seq<nat>, next: nat, open: set<int>, owner: Owners,
              users: multiset<nat>, pending: set<int>, e: Entry, owner': Owners, users': multiset<nat>,
              pending': set<int>)
    requires Inv(entries, index, queue, next, open, owner, users, {}, pending) && e.name !in index
    requires users'[next] == e.count && forall x :: x != next ==> users'[x] == users[x]
    requires owner' == if e.fd == INVALID then owner else owner[e.fd := next]
    requires e.fd != INVALID ==> e.fd !in owner && pending == {e.fd} && pending' == {}
    requires e.fd == INVALID ==> pending' == pending
    requires (!IsFile(e) ==> e.count == 0 && e.fd == INVALID) && (e.count > 0 ==> e.fd != INVALID)
             && (IsFile(e) ==> !e.close)
    ensures |index[e.name := next]| == |index| + 1
    ensures Inv(entries[next := e], index[e.name := next], queue, next + 1, open, owner', users', {next}, pending')
  {
    hide EntriesOk, IndexOk, FdsOk;
    EnterEntries(entries, index, owner, users, next, e, owner', users', queue);
    EnterIndex(entries, index, queue, next, e);
    EnterFds(entries, open, owner, pending, next, e, owner', pending');
    assert (index[e.name := next]).Keys == index.Keys + {e.name};
  }

  lemma EnterEntries(entries: Entries, index: Index, owner: Owners, users: multiset<nat>, next: nat, e: Entry,
                     owner': Owners, users': multiset<nat>, queue: seq<nat>)
    requires EntriesOk(entries, index, owner, users, next) && e.name !in index
    requires users'[next] == e.count && forall x :: x != next ==> users'[x] == users[x]
    requires owner' == if e.fd == INVALID then owner else owner[e.fd := next]
    requires e.fd != INVALID ==> e.fd !in owner
    requires (!IsFile(e) ==> e.count == 0 && e.fd == INVALID) && (e.count > 0 ==> e.fd != INVALID)
             && (IsFile(e) ==> !e.close)
    ensures next !in entries
    ensures EntriesOk(entries[next := e], index[e.name := next], owner', users', next + 1)
  {
    var entries', index' := entries[next := e], index[e.name := next];
    forall x | x in entries
      ensures x < next
    {
      assert EntryOk(entries, index, owner, users, x);
    }
    forall x | x in entries'
      ensures x < next + 1 && EntryOk(entries', index', owner', users', x)
    {
      if x != next {
        assert EntryOk(entries, index, owner, users, x);
        assert Listed(entries', index', x) <==> Listed(entries, index, x);
      }
    }
    forall x | x in users'
      ensures x in entries'
    {
      assert x != next ==> users'[x] == users[x];
    }
  }

  lemma EnterIndex(entries: Entries, index: Index, queue: seq<nat>, next: nat, e: Entry)
    requires IndexOk(entries, index, queue, {}) && e.name !in index && next !in entries
    ensures IndexOk(entries[next := e], index[e.name := next], queue, {next})
  {
    var entries', index' := entries[next := e], index[e.name := next];
    forall n | n in index'
      ensures index'[n] in entries' && entries'[index'[n]].name == n && (index'[n] in queue || index'[n] in {next})
    {
      assert n != e.name ==> index'[n] == index[n] && index[n] in entries;
    }
  }

  lemma EnterFds(entries: Entries, open: set<int>, owner: Owners, pending: set<int>, next: nat, e: Entry,
                 owner': Owners, pending': set<int>)
    requires FdsOk(entries, open, owner, pending) && next !in entries
    requires owner' == if e.fd == INVALID then owner else owner[e.fd := next]
    requires e.fd != INVALID ==> e.fd !in owner && pending == {e.fd} && pending' == {}
    requires e.fd == INVALID ==> pending' == pending
    ensures FdsOk(entries[next := e], open, owner', pending')
  {
  }
}
