// The operations of ngx_open_file_cache.c. What the file system answers is a parameter.

module OpenFileCache {
  import opened FileCacheState
  import CacheIndex
  import RbShape

  // What one look at the file finds: `stat` may fail with an error, the open may fail
  // with one, and so may the stat of the descriptor. All three see the same file.
  datatype Disk = Disk(missing: bool, err: nat, uniq: nat, isDir: bool, fd: int, noInfo: bool)

  // The part of ngx_open_file_info_t that decides what is done.
  datatype Info = Info(fd: int, uniq: nat, err: nat, isDir: bool, testDir: bool, errors: bool, valid: int)

  // What the fields of a new entry happen to hold that are not set when it stands for an error
  datatype Junk = Junk(close: bool, isDir: bool, uniq: nat)

  // The kernel hands out a descriptor that is not open.
  ghost predicate NewFd(disk: Disk, open: set<int>) {
    disk.fd != INVALID && disk.fd !in open
  }

  // The identity of the file has been found without opening it.
  predicate Unopened(of: Info, disk: Disk) {
    if of.fd != INVALID then of.uniq == disk.uniq else of.testDir && disk.isDir
  }

  // What the cache holds at one time
  datatype Cache = Cache(entries: Entries, index: Index, queue: seq<nat>)

  class OpenFileCache {
    var entries: Entries
    var queue: seq<nat>
    var current: nat
    var next: nat
    var open: set<int>
    const tree: CacheIndex.CacheIndex
    const max: nat
    const inactive: int
    ghost var index: Index
    ghost var owner: Owners
    ghost var users: multiset<nat>

    ghost function Now(): Cache
      reads this
    {
      Cache(entries, index, queue)
    }

    // The tree is the index; its nodes are the entries, and the sentinel.
    ghost predicate Indexed()
      reads `index, `next, tree, tree.rb
    {
      tree.Valid() && tree.Index() == index && 1 < next && forall n :: n in tree.rb.mem ==> n < next
    }

    ghost predicate Holds(loose: set<nat>, pending: set<int>)
      reads this, tree, tree.rb
    {
      Inv(entries, index, queue, next, open, owner, users, loose, pending) && current == |index| && Indexed()
    }

    ghost predicate Valid()
      reads this, tree, tree.rb
    {
      Holds({}, {}) && current <= max && 0 < max
    }

    constructor (max: nat, inactive: int, hash: Name -> nat)
      requires 0 < max
      ensures Valid() && this.max == max && this.inactive == inactive && tree.hash == hash
      ensures fresh(tree) && fresh(tree.rb) && current == 0 && users == multiset{} && open == {} && index == map[]
    {
      hide Inv, CacheIndex.CacheIndex.Valid, CacheIndex.CacheIndex.Index;
      this.max, this.inactive := max, inactive;
      entries, queue, current, next, open := map[], [], 0, 2, {};
      index, owner, users := map[], map[], multiset{};
      tree := new CacheIndex.CacheIndex(1, hash);
      new;
      EmptyCache();
    }

    // ngx_rbtree_delete and the count
    method Unindex(id: nat)
      requires Indexed() && current == |index| && id in entries && Listed(entries, index, id)
      modifies `index, `current, tree, tree.rb
      ensures Indexed() && index == old(index) - {entries[id].name} && current == |index| == old(|index|) - 1
    {
      hide CacheIndex.CacheIndex.Valid, CacheIndex.CacheIndex.Index;
      ghost var name := entries[id].name;
      NameAt(entries, index, id);
      tree.Delete(id, name);
      index := index - {name};
      current := current - 1;
    }

    // ngx_open_file_lookup with the hash of the name
    method Find(name: Name) returns (id: nat)
      requires Indexed()
      ensures id != RbShape.NULL <==> name in index
      ensures name in index ==> id == index[name]
    {
      hide CacheIndex.CacheIndex.Valid, CacheIndex.CacheIndex.Index;
      id := tree.Lookup(name, tree.hash(name));
    }

    // ngx_rbtree_insert and the count, for a new entry
    method Enindex(name: Name)
      requires Indexed() && current == |index| && name !in index
      modifies `index, `current, `next, tree, tree.rb
      ensures Indexed() && index == old(index)[name := old(next)] && current == |index| == old(|index|) + 1
      ensures next == old(next) + 1
    {
      hide CacheIndex.CacheIndex.Valid, CacheIndex.CacheIndex.Index;
      tree.Insert(next, RbShape.Cell(tree.hash(name), 0, 0, 0, false), name);
      index := index[name := next];
      next, current := next + 1, current + 1;
    }

    // Every descriptor is closed once: only an open one can be.
    method CloseFd(fd: int)
      requires fd in open
      modifies `open
      ensures open == old(open) - {fd}
    {
      open := open - {fd};
    }

    // ngx_open_and_stat_file
    method OpenAndStat(of0: Info, disk: Disk) returns (ok: bool, of: Info)
      requires NewFd(disk, open)
      modifies `open
      ensures ok <==> !disk.missing && (disk.noInfo ==> Unopened(of0, disk))
      ensures !ok ==> of == of0.(fd := INVALID, err := if disk.missing then disk.err else of0.err) && open == old(open)
      ensures ok ==>
                of.uniq == disk.uniq && of.isDir == disk.isDir
                && of == of0.(fd := of.fd, uniq := of.uniq, isDir := of.isDir)
      ensures ok && Unopened(of0, disk) ==> of.fd == of0.fd && open == old(open)
      ensures ok && !Unopened(of0, disk) && disk.isDir ==> of.fd == INVALID && open == old(open)
      ensures ok && !Unopened(of0, disk) && !disk.isDir ==> of.fd == disk.fd && open == old(open) + {disk.fd}
    {
      of := of0;
      if of.fd != INVALID {
        if disk.missing {
          return false, of.(fd := INVALID, err := disk.err);
        }
        if of.uniq == disk.uniq {
          return true, of.(uniq := disk.uniq, isDir := disk.isDir);
        }
      } else if of.testDir {
        if disk.missing {
          return false, of.(fd := INVALID, err := disk.err);
        }
        if disk.isDir {
          return true, of.(uniq := disk.uniq, isDir := disk.isDir);
        }
      }
      if disk.missing {
        return false, of.(fd := INVALID, err := disk.err);
      }
      var fd := disk.fd;
      open := open + {fd};
      if disk.noInfo {
        CloseFd(fd);
        return false, of.(fd := INVALID);
      }
      if disk.isDir {
        CloseFd(fd);
        of := of.(fd := INVALID);
      } else {
        of := of.(fd := fd);
      }
      return true, of.(uniq := disk.uniq, isDir := disk.isDir);
    }

    // An entry without users is dropped from the index and freed.
    method Drop(id: nat)
      requires Indexed() && current == |index| && id in entries && Listed(entries, index, id)
      requires entries[id].fd != INVALID ==> entries[id].fd in open
      modifies `entries, `index, `current, `open, `owner, tree, tree.rb
      ensures Indexed() && entries == old(entries) - {id} && index == old(index) - {old(entries)[id].name}
      ensures current == |index| == old(|index|) - 1 && owner == old(owner) - {old(entries)[id].fd}
      ensures open == if old(entries)[id].fd != INVALID then old(open) - {old(entries)[id].fd} else old(open)
    {
      hide Indexed;
      Unindex(id);
      var e := entries[id];
      if e.fd != INVALID {
        CloseFd(e.fd);
      }
      owner := owner - {e.fd};
      entries := entries - {id};
    }

    // The same, for a loose entry.
    method Discard(id: nat, ghost pending: set<int>)
      requires Holds({id}, pending) && id in entries && entries[id].count == 0
      modifies this, tree, tree.rb
      ensures Holds({}, pending) && current < old(current) && users == old(users) && queue == old(queue)
              && next == old(next)
      ensures entries == old(entries) - {id} && index == old(index) - {old(entries)[id].name}
      ensures open == old(open) - {old(entries)[id].fd}
    {
      hide Inv, Indexed;
      Free(entries, index, queue, next, open, owner, users, pending, id);
      Drop(id);
    }

    // A loose entry with users is dropped from the index, and goes with its last user.
    method Detach(id: nat, ghost pending: set<int>)
      requires Holds({id}, pending) && id in entries && entries[id].count > 0
      modifies `entries, `index, `current, tree, tree.rb
      ensures Holds({}, pending) && current < old(current)
      ensures entries == old(entries)[id := old(entries)[id].(close := true)]
      ensures index == old(index) - {old(entries)[id].name}
    {
      hide Inv, Indexed;
      Unlist(entries, index, queue, next, open, owner, users, pending, id);
      Unindex(id);
      entries := entries[id := entries[id].(close := true)];
    }

    // One turn of ngx_expire_old_cached_files: the last entry of the queue goes.
    method ExpireLast(ghost pending: set<int>)
      requires Holds({}, pending) && queue != [] && queue[|queue| - 1] in entries
      modifies this, tree, tree.rb
      ensures Holds({}, pending) && current < old(current) && users == old(users)
      ensures DropsLast(old(Now()), Now())
      ensures HeldKept(users, old(entries), entries) && open <= old(open)
    {
      hide Inv, Indexed;
      HeldEntries(entries, index, queue, next, open, owner, users, {}, pending);
      var id := queue[|queue| - 1];
      ZeroUsers(entries, index, queue, next, open, owner, users, {}, pending, id);
      LoosenLast(entries, index, queue, next, open, owner, users, pending);
      queue := queue[..|queue| - 1];
      if entries[id].err == 0 && !entries[id].isDir && entries[id].count > 0 {
        Detach(id, pending);
      } else {
        Discard(id, pending);
      }
    }

    // ngx_expire_old_cached_files
    method Expire(n0: nat, now: int, ghost pending: set<int>)
      requires Holds({}, pending)
      modifies this, tree, tree.rb
      ensures Holds({}, pending) && current <= old(current) && users == old(users)
      ensures n0 == 0 && old(current) > 0 ==> current < old(current)
      ensures Swept(old(Now()), Now(), n0, now, inactive)
      ensures forall fd :: fd in pending ==> fd in open
      ensures HeldKept(users, old(entries), entries) && open <= old(open)
    {
      hide Inv, Indexed, DropsLast, Dropped, Overdue, Sound;
      ghost var c0 := Now();
      HeldEntries(entries, index, queue, next, open, owner, users, {}, pending);
      Listing(entries, index, queue, next, open, owner, users, pending);
      NoneDropped(Now());
      NoneOverdue(Now(), n0, now, inactive);
      var n := n0;
      while n < 3
        invariant Holds({}, pending) && current <= old(current) && users == old(users) && n0 <= n && (n == n0 || n <= 3)
        invariant n0 == 0 && n > 0 && old(current) > 0 ==> current < old(current)
        invariant Dropped(c0, Now(), n - n0) && Overdue(c0, n - n0, n0, now, inactive)
        invariant HeldKept(users, old(entries), entries) && open <= old(open)
      {
        QueueCount(entries, index, queue, next, open, owner, users, pending);
        if queue == [] {
          break;
        }
        var id := queue[|queue| - 1];
        assert id in queue;
        StillThere(c0, Now(), n - n0);
        if n != 0 && now - entries[id].accessed <= inactive {
          break;
        }
        MoreOverdue(c0, n - n0, n0, now, inactive);
        ghost var before := Now();
        n := n + 1;
        ExpireLast(pending);
        OneMoreDropped(c0, before, Now(), n - n0 - 1);
      }
      SweptIs(c0, Now(), n - n0, n0, now, inactive);
      PendingOpen(entries, index, queue, next, open, owner, users, {}, pending);
    }

    // -------- a user leaves --------

    // ngx_open_file_cleanup
    method Leave(id: nat, minUses: nat, now: int) returns (ghost mid: Cache)
      requires Valid() && id in users
      modifies this, tree, tree.rb
      ensures Valid() && users == old(users) - multiset{id}
      ensures Left(old(Now()), mid, id, minUses, now) && Swept(mid, Now(), 1, now, inactive)
      ensures HeldKept(users, old(entries), entries)
      ensures old(id in entries && !Listed(entries, index, id)) && old(users[id]) == 1 ==>
                id !in entries && old(entries)[id].fd !in open
    {
      hide Inv, Indexed, Left, Swept;
      CloseCached(id, minUses, now);
      mid := Now();
      Expire(1, now, {});
      SweptKeys(mid, Now(), 1, now, inactive);
    }

    // ngx_close_cached_file, for a user that leaves
    method CloseCached(id: nat, minUses: nat, now: int)
      requires Valid() && id in users
      modifies this, tree, tree.rb
      ensures Valid() && users == old(users) - multiset{id}
      ensures Left(old(Now()), Now(), id, minUses, now)
      ensures HeldKept(users, old(entries), entries)
      ensures old(id in entries && !Listed(entries, index, id)) && old(users[id]) == 1 ==>
                id !in entries && old(entries)[id].fd !in open
    {
      hide Inv, HeldKept, Indexed;
      HeldEntries(entries, index, queue, next, open, owner, users, {}, {});
      HeldAt(users, entries, id);
      if !entries[id].close {
        LeaveListed(id, minUses, now);
      } else if entries[id].count > 1 {
        LeaveMarked(id);
      } else {
        FreeMarked(id);
      }
    }

    // The entry is still in the index: it becomes the most recently used one, and its
    // descriptor is closed when nobody uses it and it was not asked for often.
    method LeaveListed(id: nat, minUses: nat, now: int)
      requires Valid() && id in users && id in entries && entries[id].count == users[id] && Listed(entries, index, id)
      requires entries[id].fd in open && entries[id].fd != INVALID && HeldKept(users, entries, entries)
      modifies `entries, `open, `owner, `users, `queue
      ensures Valid() && users == old(users) - multiset{id} && HeldKept(users, old(entries), entries)
      ensures queue == [id] + Without(old(queue), id) && entries == old(entries)[id := entries[id]]
      ensures
        var e := old(entries)[id];
        entries[id] == e.(count := e.count - 1, accessed := now,
                          fd := if e.count == 1 && e.uses < minUses then INVALID else e.fd)
    {
      hide Inv, HeldKept, Indexed, Listed, Without, Reowned, IsFile, EntriesOk, IndexOk, FdsOk, EntryOk;
      var e := entries[id];
      var count := e.count - 1;
      LoosenAll(entries, index, queue, next, open, owner, users, {}, id);
      queue := Without(queue, id);
      var keep := e.uses >= minUses || count > 0;
      var e' := e.(count := count, accessed := now, fd := if keep then e.fd else INVALID);
      LeaveEntry(entries, index, queue, next, open, owner, users, {id}, id, e');
      HeldChanged(users, entries, id, e');
      if !keep {
        CloseFd(e.fd);
      }
      owner, users := Reowned(owner, e, e', id), users - multiset{id};
      entries := entries[id := e'];
      FastenAll(entries, index, queue, next, open, owner, users, {}, id);
      queue := [id] + queue;
      assert Inv(entries, index, queue, next, open, owner, users, {}, {});
    }

    // The entry has left the index, and others use it.
    method LeaveMarked(id: nat)
      requires Valid() && id in users && id in entries && entries[id].count == users[id] && users[id] > 1
      requires entries[id].fd != INVALID && HeldKept(users, entries, entries)
      modifies `entries, `owner, `users
      ensures Valid() && users == old(users) - multiset{id} && HeldKept(users, old(entries), entries)
      ensures entries == old(entries)[id := old(entries)[id].(count := old(entries)[id].count - 1)]
    {
      hide Inv, HeldKept, Indexed;
      var e := entries[id];
      var e' := e.(count := e.count - 1);
      LeaveEntry(entries, index, queue, next, open, owner, users, {}, id, e');
      HeldChanged(users, entries, id, e');
      owner, users := Reowned(owner, e, e', id), users - multiset{id};
      entries := entries[id := e'];
    }

    // The entry has left the index, and goes with its last user.
    method FreeMarked(id: nat)
      requires Valid() && id in users && id in entries && entries[id].count == users[id] == 1
               && !Listed(entries, index, id)
      requires HeldKept(users, entries, entries)
      modifies `entries, `open, `owner, `users
      ensures Valid() && users == old(users) - multiset{id} && HeldKept(users, old(entries), entries)
      ensures entries == old(entries) - {id} && old(entries)[id].fd !in open
    {
      hide Inv, HeldKept, Indexed, Listed, IsFile, EntriesOk, IndexOk, FdsOk, EntryOk, Reowned, Found, Fits, Without;
      FreeDetached(entries, index, queue, next, open, owner, users, id);
      HeldFreed(users, entries, id);
      Release(id);
      users := users - multiset{id};
    }

    // The end of ngx_close_cached_file
    method Release(id: nat)
      requires id in entries && entries[id].fd in open
      modifies `entries, `open, `owner
      ensures entries == old(entries) - {id} && open == old(open) - {old(entries)[id].fd}
      ensures owner == old(owner) - {old(entries)[id].fd}
    {
      CloseFd(entries[id].fd);
      owner := owner - {entries[id].fd};
      entries := entries - {id};
    }

    // -------- a file is asked for --------

    // Entry `id` takes over what has been found, and a user if it is a file.
    method Update(id: nat, of: Info, now: int, ghost pending: set<int>)
      requires Holds({id}, pending) && id in entries && Fits(entries[id], of, pending)
      modifies `entries, `open, `owner, `users
      ensures Holds({id}, {})
      ensures users == old(users) + (if of.err == 0 && !of.isDir then multiset{id} else multiset{})
      ensures entries.Keys == old(entries).Keys && entries[id] == Found(old(entries)[id], of, now)
      ensures forall x :: x in entries && x != id ==> entries[x] == old(entries)[x]
      ensures forall fd :: fd in old(open) && fd != old(entries)[id].fd ==> fd in open
      ensures of.fd != INVALID ==> of.fd in open
      ensures open <= old(open)
    {
      hide Inv, Indexed;
      var e := entries[id];
      var e' := Found(e, of, now);
      ghost var users' := users + (if of.err == 0 && !of.isDir then multiset{id} else multiset{});
      UpdateEntry(entries, index, queue, next, open, owner, users, pending, id, of, now, users');
      if e.fd != INVALID && e.fd != of.fd {
        CloseFd(e.fd);
      }
      owner, users := Reowned(owner, e, e', id), users';
      entries := entries[id := e'];
    }

    // The entry goes to the head of the queue.
    method Finish(id: nat)
      requires Holds({id}, {})
      modifies `queue
      ensures Holds({}, {}) && queue == [id] + old(queue)
    {
      hide Inv, Indexed;
      FastenAll(entries, index, queue, next, open, owner, users, {}, id);
      queue := [id] + queue;
    }

    // A new entry; the flags of one with an error are not set.
    method Create(name: Name, of: Info, now: int, junk: Junk, ghost pending: set<int>)
        returns (id: nat, ghost mid: Cache)
      requires Holds({}, pending) && current <= max && 0 < max && name !in index
      requires if of.fd == INVALID then pending == {} && (of.err != 0 || of.isDir)
               else pending == {of.fd} && of.err == 0 && !of.isDir
      modifies this, tree, tree.rb
      ensures Holds({id}, {}) && current <= max && id in entries && id !in old(users)
      ensures users == old(users) + (if of.err == 0 && !of.isDir then multiset{id} else multiset{})
      ensures if old(current) >= max then Swept(old(Now()), mid, 0, now, inactive) else mid == old(Now())
      ensures id !in mid.entries && Anew(entries[id], name, of, now) && name !in mid.index
      ensures Now() == Cache(mid.entries[id := entries[id]], mid.index[name := id], mid.queue)
      ensures HeldKept(old(users), old(entries), entries)
      ensures of.fd != INVALID ==> of.fd in open
      ensures open <= old(open)
    {
      hide Inv, HeldKept, Indexed, Swept;
      HeldEntries(entries, index, queue, next, open, owner, users, {}, pending);
      mid := Now();
      if current >= max {
        Expire(0, now, pending);
        SweptKeys(mid, Now(), 0, now, inactive);
        mid := Now();
      }
      ghost var entries1, users1 := entries, users;
      FreshId(entries, index, queue, next, open, owner, users, {}, pending);
      id := Insert(name, of, now, junk, pending);
      HeldMore(users1, old(entries), entries1, entries, id);
    }

    method Insert(name: Name, of: Info, now: int, junk: Junk, ghost pending: set<int>) returns (id: nat)
      requires Holds({}, pending) && name !in index
      requires if of.fd == INVALID then pending == {} && (of.err != 0 || of.isDir)
               else pending == {of.fd} && of.err == 0 && !of.isDir
      modifies `entries, `index, `next, `current, `owner, `users, tree, tree.rb
      ensures Holds({id}, {}) && current == old(current) + 1 && index == old(index)[name := id]
      ensures id == old(next) && id in entries && entries == old(entries)[id := entries[id]]
      ensures users == old(users) + (if of.err == 0 && !of.isDir then multiset{id} else multiset{})
      ensures id !in old(entries) && Anew(entries[id], name, of, now)
      ensures of.fd != INVALID ==> of.fd in open
    {
      hide Inv, Indexed;
      id := next;
      var file := of.err == 0 && !of.isDir;
      var e := Entry(name, now, now, of.fd, if of.err == 0 then of.uniq else junk.uniq, of.err, 1,
                     if file then 1 else 0, of.err != 0 && junk.close, if of.err == 0 then of.isDir else junk.isDir);
      ghost var owner' := if of.fd == INVALID then owner else owner[of.fd := id];
      ghost var users' := users + (if file then multiset{id} else multiset{});
      FreshId(entries, index, queue, next, open, owner, users, {}, pending);
      Enter(entries, index, queue, next, open, owner, users, pending, e, owner', users', {});
      PendingOpen(entries, index, queue, next, open, owner, users, {}, pending);
      entries := entries[id := e];
      Enindex(name);
      owner, users := owner', users';
    }

    // The lines behind `failed`: the entry leaves the index, and goes at once when nobody uses it.
    method Failed(id: nat)
      requires Indexed() && current == |index| && id in entries && Listed(entries, index, id)
      requires entries[id].fd != INVALID ==> entries[id].fd in open
      modifies `entries, `index, `current, `open, `owner, tree, tree.rb
      ensures Indexed() && index == old(index) - {old(entries)[id].name} && current == |index| < old(|index|)
      ensures entries == if old(entries)[id].count == 0 then old(entries) - {id}
                         else old(entries)[id := old(entries)[id].(close := true)]
      ensures open == if old(entries)[id].count == 0 && old(entries)[id].fd != INVALID
                      then old(open) - {old(entries)[id].fd} else old(open)
      ensures owner == if old(entries)[id].count == 0 then old(owner) - {old(entries)[id].fd} else old(owner)
    {
      hide Indexed;
      if entries[id].count == 0 {
        Drop(id);
      } else {
        Unindex(id);
        entries := entries[id := entries[id].(close := true)];
      }
    }

    // The file cannot be had, and the failure is not to be cached: the entry goes.
    method Fail(id: nat)
      requires Holds({id}, {}) && id in entries
      modifies this, tree, tree.rb
      ensures Holds({}, {}) && current <= old(current) && users == old(users) && HeldKept(users, old(entries), entries)
      ensures index == old(index) - {old(entries)[id].name} && queue == old(queue)
      ensures entries == if old(entries)[id].count == 0 then old(entries) - {id}
                         else old(entries)[id := old(entries)[id].(close := true)]
      ensures open <= old(open)
    {
      hide Inv, Indexed;
      HeldEntries(entries, index, queue, next, open, owner, users, {id}, {});
      KeptOpen(entries, index, queue, next, open, owner, users, {id}, {}, id);
      if entries[id].count == 0 {
        ZeroUsers(entries, index, queue, next, open, owner, users, {id}, {}, id);
        Free(entries, index, queue, next, open, owner, users, {}, id);
      } else {
        Unlist(entries, index, queue, next, open, owner, users, {}, id);
      }
      Failed(id);
    }

    // ngx_open_cached_file, with a cache. The file system answers with `disk`; `junk` is
    // what the flags of a new entry with an error happen to hold.
    method Open(name: Name, info: Info, disk: Disk, now: int, junk: Junk)
        returns (ok: bool, of: Info, ghost mid: Cache)
      requires Valid() && NewFd(disk, open) && !info.isDir
      modifies this, tree, tree.rb
      ensures Valid() <==> !Clash(old(entries), old(index), name, info, disk, now)
      ensures Valid() ==> Answered(old(users), old(entries), users, entries, index, queue, open, name, ok, of)
      ensures Valid() ==> OthersStay(mid, Now(), name)
                          && Became(mid, Now(), name, Hit(old(entries), old(index), name, info, now), of, now)
      ensures if name !in old(index) && old(current) >= max && name in index
              then Swept(old(Now()), mid, 0, now, inactive)
              else mid == old(Now())
      ensures !Valid() ==> Muddled(users, entries, index, open, name, old(entries), old(index)[name]) && queue != []
      ensures Indexed() && current == |index| <= max && open <= old(open) + {disk.fd}
      ensures if Hit(old(entries), old(index), name, info, now)
              then open == old(open) && of.err == old(entries)[old(index)[name]].err && ok == (of.err == 0)
              else FromDisk(old(entries), old(index), info.testDir, disk, name, ok, of)
                   && (name in index <==> ok || (of.err != 0 && info.errors))
    {
      hide Inv, HeldKept, NewFd, Answered, Muddled, Indexed, Without, EntriesOk, IndexOk, FdsOk, EntryOk, OthersStay,
           Became, Swept, FromDisk;
      mid := Now();
      var of0 := info.(fd := INVALID, err := 0);
      var id := Find(name);
      if id == RbShape.NULL {
        NotListed(entries, index, name, info, disk, now);
        ok, of, mid := OpenNew(name, of0, disk, now, junk);
      } else {
        ok, of := OpenListed(id, name, of0, disk, now, junk);
      }
    }

    // There is an entry of the name.
    method OpenListed(id: nat, name: Name, info: Info, disk: Disk, now: int, junk: Junk) returns (ok: bool, of: Info)
      requires Valid() && NewFd(disk, open) && !info.isDir && info.fd == INVALID && info.err == 0
      requires name in index && index[name] == id
      modifies this, tree, tree.rb
      ensures Valid() <==> !Clash(old(entries), old(index), name, info, disk, now)
      ensures Valid() ==> Answered(old(users), old(entries), users, entries, index, queue, open, name, ok, of)
      ensures Valid() ==> OthersStay(old(Now()), Now(), name)
                          && Became(old(Now()), Now(), name, Hit(old(entries), old(index), name, info, now), of, now)
      ensures !Valid() ==> Muddled(users, entries, index, open, name, old(entries), id) && queue != []
      ensures Indexed() && current == |index| <= max && open <= old(open) + {disk.fd}
      ensures if Hit(old(entries), old(index), name, info, now)
              then open == old(open) && old(id in entries) && of.err == old(entries)[id].err && ok == (of.err == 0)
              else FromDisk(old(entries), old(index), info.testDir, disk, name, ok, of)
                   && (name in index <==> ok || (of.err != 0 && info.errors))
    {
      hide Inv, HeldKept, NewFd, Answered, Muddled, Indexed, Without, EntriesOk, IndexOk, FdsOk, EntryOk, OthersStay,
           Became, Settled, Swept, FromDisk, Unopened, Found, Anew, Listed;
      IndexAt(entries, index, queue, next, open, owner, users, name);
      var e := entries[id];
      if !(e.fd == INVALID && e.err == 0 && !e.isDir) {
        if (info.uniq == 0 || info.uniq == e.uniq) && now - e.created < info.valid {
          ok, of := Reuse(id, name, info, now);
          return;
        }
      }
      ok, of := LookAgain(id, name, info, disk, now, junk);
    }

    // What is cached is good enough.
    method Reuse(id: nat, name: Name, info: Info, now: int) returns (ok: bool, of: Info)
      requires Valid() && !info.isDir && info.fd == INVALID && info.err == 0
      requires name in index && index[name] == id && id in entries && entries[id].name == name
      requires !(entries[id].fd == INVALID && IsFile(entries[id]))
      modifies `entries, `queue, `users
      ensures Valid() && Answered(old(users), old(entries), users, entries, index, queue, open, name, ok, of)
      ensures OthersStay(old(Now()), Now(), name) && Became(old(Now()), Now(), name, true, of, now)
      ensures of.err == old(entries)[id].err && ok == (of.err == 0)
    {
      hide Inv, HeldKept, NewFd, Answered, Muddled, Indexed, Without, EntriesOk, IndexOk, FdsOk, EntryOk, OthersStay,
           Became, Settled, Swept, FromDisk, Unopened, Found, Anew;
      IndexAt(entries, index, queue, next, open, owner, users, name);
      ghost var c0 := Now();
      TakeListed(id, name);
      ghost var c1, entries1 := Now(), entries;
      ok, of := UseHit(id, name, info, now);
      AnsweredThrough(old(users), old(entries), entries1, users, entries, index, queue, open, name, ok, of);
      HitBecame(c0, c1, Now(), name, of, now);
    }

    // The entry is taken out of the queue, and the file looked at again.
    method LookAgain(id: nat, name: Name, info: Info, disk: Disk, now: int, junk: Junk) returns (ok: bool, of: Info)
      requires Valid() && NewFd(disk, open) && !info.isDir && info.fd == INVALID && info.err == 0
      requires name in index && index[name] == id && id in entries && entries[id].name == name
      modifies this, tree, tree.rb
      ensures Valid() <==> !Reused(Retested(info, old(entries)[id]), disk)
      ensures Valid() ==> Answered(old(users), old(entries), users, entries, index, queue, open, name, ok, of)
      ensures Valid() ==> OthersStay(old(Now()), Now(), name) && Became(old(Now()), Now(), name, false, of, now)
      ensures !Valid() ==> Muddled(users, entries, index, open, name, old(entries), id) && queue != []
      ensures Indexed() && current == |index| <= max && open <= old(open) + {disk.fd}
      ensures FromDisk(old(entries), old(index), info.testDir, disk, name, ok, of)
      ensures name in index <==> ok || (of.err != 0 && info.errors)
    {
      hide Inv, HeldKept, NewFd, Answered, Muddled, Indexed, Without, EntriesOk, IndexOk, FdsOk, EntryOk, OthersStay,
           Became, Settled, Swept, FromDisk, Unopened, Found, Anew;
      IndexAt(entries, index, queue, next, open, owner, users, name);
      ghost var c0 := Now();
      var e := entries[id];
      TakeListed(id, name);
      ghost var c1, entries1 := Now(), entries;
      var of0 := Retested(info, e);
      ok, of := Retest(id, name, of0, disk, now, junk);
      RetestedDisk(c0, info, of0, disk, name, ok, of);
      if !Reused(of0, disk) {
        AnsweredThrough(old(users), old(entries), entries1, users, entries, index, queue, open, name, ok, of);
        SettledBecame(c0, c1, Now(), name, of, now);
      } else {
        MuddledSame(users, entries, index, open, name, old(entries), entries1, id);
      }
    }

    // The entry is in use, and out of the queue for the time being.
    method Take(id: nat)
      requires id in entries
      modifies `entries, `queue
      ensures entries == old(entries)[id := old(entries)[id].(uses := old(entries)[id].uses + 1)]
      ensures queue == Without(old(queue), id)
    {
      entries := entries[id := entries[id].(uses := entries[id].uses + 1)];
      queue := Without(queue, id);
    }

    method TakeListed(id: nat, name: Name)
      requires Valid() && id in entries && Listed(entries, index, id) && name in index && index[name] == id
      requires HeldKept(users, entries, entries)
      modifies `entries, `queue
      ensures Holds({id}, {}) && Taken(old(Now()), Now(), name) && HeldKept(users, old(entries), entries)
    {
      hide Inv, HeldKept, Indexed, Without, EntriesOk, IndexOk, FdsOk, EntryOk, Listed;
      var e := entries[id];
      LoosenAll(entries, index, queue, next, open, owner, users, {}, id);
      UseEntry(entries, index, Without(queue, id), next, open, owner, users, {id}, id);
      HeldSame(users, entries, entries[id := e.(uses := e.uses + 1)], id);
      Take(id);
    }

    // The same function in a state in which the cache is not valid any more: a file is looked
    // at again and is not there.
    method OpenGone(name: Name, info: Info, disk: Disk, now: int) returns (ok: bool, of: Info)
      requires Indexed() && current == |index|
      requires name in index && index[name] in entries && entries[index[name]].name == name
      requires entries[index[name]].fd != INVALID ==> entries[index[name]].fd in open
      requires !Hit(entries, index, name, info, now) && disk.missing && !info.errors && NewFd(disk, open)
      modifies this, tree, tree.rb
      ensures Indexed() && !ok && of.err == disk.err && index == old(index) - {name} && users == old(users)
      ensures
        var id := old(index)[name];
        var e := old(entries)[id];
        if e.count == 0 then
          entries == old(entries) - {id} && open == if e.fd == INVALID then old(open) else old(open) - {e.fd}
        else entries == old(entries)[id := e.(uses := e.uses + 1, close := true)] && open == old(open)
    {
      hide Indexed, NewFd;
      var of0 := info.(fd := INVALID, err := 0);
      var id := Find(name);
      var e := entries[id];
      Take(id);
      of0 := Retested(of0, e);
      ok, of := OpenAndStat(of0, disk);
      Failed(id);
    }

    // The name is not cached.
    method OpenNew(name: Name, of0: Info, disk: Disk, now: int, junk: Junk)
        returns (ok: bool, of: Info, ghost mid: Cache)
      requires Valid() && NewFd(disk, open) && name !in index && of0.fd == INVALID && of0.err == 0 && !of0.isDir
      modifies this, tree, tree.rb
      ensures Valid() && Answered(old(users), old(entries), users, entries, index, queue, open, name, ok, of)
      ensures OthersStay(mid, Now(), name) && Became(mid, Now(), name, false, of, now)
      ensures if old(current) >= max && name in index then Swept(old(Now()), mid, 0, now, inactive)
              else mid == old(Now())
      ensures FromDisk(old(entries), old(index), of0.testDir, disk, name, ok, of)
      ensures name in index <==> ok || (of.err != 0 && of0.errors)
      ensures open <= old(open) + {disk.fd}
    {
      hide Inv, HeldKept, Indexed, Swept, OthersStay, Became, Anew, Answered, FromDisk, EntriesOk, IndexOk, FdsOk,
           EntryOk;
      mid := Now();
      NewDisk(Now(), of0, disk, name);
      NothingBecame(Now(), name);
      HeldEntries(entries, index, queue, next, open, owner, users, {}, {});
      PendingAdded(entries, index, queue, next, open, owner, users, {}, disk.fd);
      ok, of := OpenAndStat(of0, disk);
      if !ok && (of.err == 0 || !of.errors) {
        AnsweredFailed(old(users), old(entries), users, entries, index, queue, open, name, of);
        return;
      }
      var id;
      id, mid := Create(name, of, now, junk, if of.fd != INVALID then {of.fd} else {});
      AnewIs(entries[id], name, of, now);
      Finish(id);
      NewBecame(mid, Now(), id, name, of, now);
      AnsweredNew(old(users), old(entries), users, entries, index, queue, open, name, id, of, now);
      ok := of.err == 0;
    }

    // A cached answer is still good enough.
    method UseHit(id: nat, name: Name, of0: Info, now: int) returns (ok: bool, of: Info)
      requires Holds({id}, {}) && current <= max && 0 < max && id in entries && name in index && index[name] == id
      requires entries[id].name == name && !(entries[id].fd == INVALID && IsFile(entries[id])) && of0.err == 0
               && !of0.isDir
      modifies `entries, `queue, `users
      ensures Valid() && Answered(old(users), old(entries), users, entries, index, queue, open, name, ok, of)
      ensures of.err == old(entries)[id].err && ok == (of.err == 0) && of.isDir == (ok && old(entries)[id].isDir)
      ensures queue == [id] + old(queue)
      ensures
        var e := old(entries)[id];
        entries == old(entries)[id := e.(accessed := now, count := if IsFile(e) then e.count + 1 else e.count)]
    {
      hide Inv, HeldKept, Indexed;
      var e := entries[id];
      var file := e.err == 0 && !e.isDir;
      var e' := e.(accessed := now, count := if file then e.count + 1 else e.count);
      HeldEntries(entries, index, queue, next, open, owner, users, {id}, {});
      HeldSame(users, entries, entries[id := e'], id);
      HitEntry(entries, index, queue, next, open, owner, users, {id}, id, e');
      entries := entries[id := e'];
      users := users + (if file then multiset{id} else multiset{});
      Finish(id);
      if e.err == 0 {
        of := of0.(fd := e.fd, uniq := e.uniq, isDir := e.isDir);
      } else {
        of := of0.(err := e.err);
      }
      ok := e.err == 0;
    }

    // The file is looked at again.
    method Retest(id: nat, name: Name, of0: Info, disk: Disk, now: int, junk: Junk) returns (ok: bool, of: Info)
      requires Holds({id}, {}) && current <= max && 0 < max && id in entries && name in index && index[name] == id
      requires entries[id].name == name && NewFd(disk, open)
      requires of0.fd == entries[id].fd && (of0.fd != INVALID ==> of0.uniq == entries[id].uniq) && of0.err == 0
               && !of0.isDir
      modifies this, tree, tree.rb
      ensures Valid() <==> !Reused(of0, disk)
      ensures Valid() ==> Answered(old(users), old(entries), users, entries, index, queue, open, name, ok, of)
      ensures !Valid() ==> Muddled(users, entries, index, open, name, old(entries), id) && queue != []
      ensures Indexed() && current == |index| <= max && open <= old(open) + {disk.fd}
      ensures Valid() ==> Settled(old(Now()), Now(), id, name, of, now)
      ensures name in index <==> ok || (of.err != 0 && of0.errors)
      ensures ok <==> !disk.missing && (disk.noInfo ==> Unopened(of0, disk))
      ensures ok ==> of.err == 0 && of.uniq == disk.uniq && of.isDir == disk.isDir
                     && (!of.isDir ==> of.fd == if Unopened(of0, disk) then of0.fd else disk.fd)
      ensures !ok ==> of.fd == INVALID && of.err == if disk.missing then disk.err else 0
    {
      hide Inv, HeldKept, Answered, Muddled, Indexed, Settled, Anew;
      PendingAdded(entries, index, queue, next, open, owner, users, {id}, disk.fd);
      EntryKinds(entries, index, queue, next, open, owner, users, {id}, {}, id);
      ok, of := OpenAndStat(of0, disk);
      if !ok && (of.err == 0 || !of.errors) {
        ghost var c := Now();
        Fail(id);
        FailSettled(c, Now(), id, name, of, now);
        AnsweredFailed(old(users), old(entries), users, entries, index, queue, open, name, of);
        return;
      }
      ghost var pending := if of.fd != INVALID && of.fd != of0.fd then {of.fd} else {};
      var e := entries[id];
      ghost var c1 := Now();
      var keep := if of.isDir then e.isDir || e.err != 0
                  else if of.err == 0 then e.isDir || e.err != 0 || of.uniq == e.uniq
                  else e.isDir || e.err != 0;
      if of.isDir && of.fd != INVALID {
        TakeOver(id, name, of, now);
      } else if keep || e.count == 0 {
        Renew(id, name, of, now, pending);
        RenewSettled(c1, Now(), id, name, of, now);
      } else {
        var other := Renamed(id, name, of, now, junk, pending);
        RenamedSettled(c1, Now(), id, other, name, of, now);
      }
      ok := of.err == 0;
    }

    // The path now leads to a directory with the identity of the file that is kept open. The
    // entry is not kept, but the descriptor is: without users it is closed first, with users
    // a new entry shares it.
    method TakeOver(id: nat, name: Name, of: Info, now: int)
      requires Holds({id}, {}) && current <= max && 0 < max && id in entries && name in index && index[name] == id
      requires entries[id].name == name && of.fd == entries[id].fd && of.fd != INVALID && of.isDir && of.err == 0
      requires of.uniq == entries[id].uniq
      modifies this, tree, tree.rb
      ensures !Valid() && Muddled(users, entries, index, open, name, old(entries), id) && name in index
      ensures Indexed() && current == |index| <= max && queue != [] && open <= old(open)
    {
      hide Inv, HeldKept, Indexed, Without, Listed, Muddled, EntriesOk, IndexOk, FdsOk, EntryOk;
      HeldEntries(entries, index, queue, next, open, owner, users, {id}, {});
      KeptOpen(entries, index, queue, next, open, owner, users, {id}, {}, id);
      ZeroUsers(entries, index, queue, next, open, owner, users, {id}, {}, id);
      ghost var d := id;
      if entries[id].count == 0 {
        CloseFd(entries[id].fd);
        entries := entries[id := Found(entries[id], of, now)];
        queue := [id] + queue;
        MuddledClosed(users, entries, index, open, name, old(entries), id, of, now);
      } else {
        HeldSame(users, entries, entries[id := entries[id].(close := true)], id);
        Detach(id, {});
        ghost var entries1 := entries;
        // `current` has just gone down, so that nothing has to expire
        HeldEntries(entries, index, queue, next, open, owner, users, {}, {});
        HeldAlong(users, entries1, entries, id);
        FreshId(entries, index, queue, next, open, owner, users, {}, {});
        d := next;
        entries := entries[next := Entry(name, now, now, of.fd, of.uniq, 0, 1, 0, false, true)];
        queue := [next] + queue;
        Enindex(name);
        MuddledShared(users, entries, index, open, name, old(entries), id, d, of, now);
      }
      NotInv(entries, index, queue, next, open, owner, users, d);
    }

    // The entry takes over what has been found.
    method Renew(id: nat, name: Name, of: Info, now: int, ghost pending: set<int>)
      requires Holds({id}, pending) && current <= max && 0 < max && id in entries && name in index && index[name] == id
      requires entries[id].name == name && Fits(entries[id], of, pending)
      modifies `entries, `open, `owner, `users, `queue
      ensures Valid() && Answered(old(users), old(entries), users, entries, index, queue, open, name, of.err == 0, of)
      ensures entries == old(entries)[id := Found(old(entries)[id], of, now)] && queue == [id] + old(queue)
      ensures open <= old(open)
    {
      hide Inv, HeldKept, Indexed;
      HeldEntries(entries, index, queue, next, open, owner, users, {id}, pending);
      HeldRenewed(users, entries, id, Found(entries[id], of, now));
      Update(id, of, now, pending);
      assert entries == old(entries)[id := Found(old(entries)[id], of, now)];
      Finish(id);
    }

    // The entry has users and the file has changed: a new entry takes its place.
    method Renamed(id: nat, name: Name, of: Info, now: int, junk: Junk, ghost pending: set<int>) returns (other: nat)
      requires Holds({id}, pending) && current <= max && 0 < max && id in entries && name in index && index[name] == id
      requires entries[id].name == name && entries[id].count > 0
      requires if of.fd == INVALID then pending == {} && (of.err != 0 || of.isDir)
               else pending == {of.fd} && of.err == 0 && !of.isDir
      modifies this, tree, tree.rb
      ensures Valid() && Answered(old(users), old(entries), users, entries, index, queue, open, name, of.err == 0, of)
      ensures other !in old(entries) && other in entries && Anew(entries[other], name, of, now)
      ensures entries == old(entries)[id := old(entries)[id].(close := true)][other := entries[other]]
      ensures index == old(index)[name := other] && queue == [other] + old(queue)
      ensures open <= old(open)
    {
      hide Inv, HeldKept, Indexed, Swept, Anew, Answered, EntriesOk, IndexOk, FdsOk, EntryOk, Listed, Without, NewFd;
      HeldEntries(entries, index, queue, next, open, owner, users, {id}, pending);
      Detach(id, pending);
      ghost var entries1 := entries;
      ghost var mid;
      other, mid := Create(name, of, now, junk, pending);
      HeldTwice(old(users), old(entries), entries1, entries);
      Finish(other);
      AnsweredNew(old(users), old(entries), users, entries, index, queue, open, name, other, of, now);
    }
  }

  // -------- what a request leaves --------

  // A new entry
  ghost predicate Anew(e: Entry, name: Name, of: Info, now: int) {
    && e.name == name && e.created == now && e.accessed == now && e.uses == 1 && e.fd == of.fd && e.err == of.err
    && e.count == (if of.err == 0 && !of.isDir then 1 else 0)
    && (of.err == 0 ==> e.uniq == of.uniq && e.isDir == of.isDir && !e.close)
  }

  // Nothing changes but the entry of the name, which comes first in the queue.
  ghost predicate OthersStay(c0: Cache, c: Cache, name: Name) {
    && (forall n :: n != name ==> (n in c.index <==> n in c0.index))
    && (forall n :: n != name && n in c.index && n in c0.index ==> c.index[n] == c0.index[n])
    && c.queue == (if name in c.index then [c.index[name]] else [])
                  + (if name in c0.index then Without(c0.queue, c0.index[name]) else c0.queue)
    && (forall id :: id in c0.entries && !(name in c0.index && id == c0.index[name]) ==>
          id in c.entries && c.entries[id] == c0.entries[id])
    && forall id :: id in c.entries ==> id in c0.entries || (name in c.index && id == c.index[name])
  }

  // What becomes of the entry of the name: its age starts again when the file was looked at.
  // An entry with users stays with the file it stands for.
  ghost predicate Became(c0: Cache, c: Cache, name: Name, hit: bool, of: Info, now: int) {
    if name !in c0.index || c0.index[name] !in c0.entries then
      name in c.index ==> c.index[name] in c.entries && c.index[name] !in c0.entries
                          && Anew(c.entries[c.index[name]], name, of, now)
    else
      var id := c0.index[name];
      var e := c0.entries[id];
      if name in c.index && c.index[name] == id then
        && (hit || e.count == 0 || (of.err == 0 && !of.isDir && of.uniq == e.uniq)) && id in c.entries
        && var e' := c.entries[id];
           && e'.name == e.name && e'.uses == e.uses + 1 && e'.accessed == now
           && e'.created == (if hit then e.created else now)
           && e'.count == (if of.err == 0 && !of.isDir then e.count + 1 else e.count)
           && (hit ==> e'.fd == e.fd && e'.uniq == e.uniq && e'.err == e.err && e'.isDir == e.isDir)
           && (hit || of.err != 0 ==> e'.close == e.close) && (!hit && of.err == 0 ==> !e'.close)
      else
        && !hit
        && (if e.count > 0 then id in c.entries && c.entries[id] == e.(uses := e.uses + 1, close := true)
            else id !in c.entries)
        && (name in c.index ==>
              && e.count > 0 && !(of.err == 0 && !of.isDir && of.uniq == e.uniq)
              && c.index[name] in c.entries && c.index[name] !in c0.entries
              && Anew(c.entries[c.index[name]], name, of, now))
  }

  lemma NothingBecame(c: Cache, name: Name)
    requires name !in c.index
    ensures OthersStay(c, c, name) && forall of, now :: Became(c, c, name, false, of, now)
  {
  }

  lemma AnewIs(e: Entry, name: Name, of: Info, now: int)
    requires Anew(e, name, of, now)
    ensures e.fd == of.fd && e.err == of.err && (of.err == 0 ==> e.uniq == of.uniq && e.isDir == of.isDir)
  {
  }

  lemma NewBecame(c0: Cache, c: Cache, id: nat, name: Name, of: Info, now: int)
    requires name !in c0.index && id !in c0.entries && id in c.entries && Anew(c.entries[id], name, of, now)
    requires c == Cache(c0.entries[id := c.entries[id]], c0.index[name := id], [id] + c0.queue)
    ensures OthersStay(c0, c, name) && Became(c0, c, name, false, of, now)
  {
    hide Anew;
  }

  // The same for an entry that has been taken out of the queue already
  ghost predicate Settled(c0: Cache, c: Cache, id: nat, name: Name, of: Info, now: int) {
    && id in c0.entries && name in c0.index && c0.index[name] == id
    && var e := c0.entries[id];
       if name !in c.index then
         && c.index == c0.index - {name} && c.queue == c0.queue
         && c.entries == if e.count == 0 then c0.entries - {id} else c0.entries[id := e.(close := true)]
       else if c.index[name] == id then
         && c.index == c0.index && c.queue == [id] + c0.queue && c.entries == c0.entries[id := Found(e, of, now)]
         && (e.count == 0 || (of.err == 0 && !of.isDir && of.uniq == e.uniq))
       else
         var other := c.index[name];
         && other !in c0.entries && other in c.entries && Anew(c.entries[other], name, of, now)
         && c.index == c0.index[name := other] && c.queue == [other] + c0.queue
         && c.entries == c0.entries[id := e.(close := true)][other := c.entries[other]]
         && e.count > 0 && !(of.err == 0 && !of.isDir && of.uniq == e.uniq)
  }

  lemma FailSettled(c0: Cache, c: Cache, id: nat, name: Name, of: Info, now: int)
    requires id in c0.entries && name in c0.index && c0.index[name] == id
    requires c.index == c0.index - {name} && c.queue == c0.queue
    requires c.entries == if c0.entries[id].count == 0 then c0.entries - {id}
                          else c0.entries[id := c0.entries[id].(close := true)]
    ensures Settled(c0, c, id, name, of, now)
  {
  }

  lemma RenewSettled(c0: Cache, c: Cache, id: nat, name: Name, of: Info, now: int)
    requires id in c0.entries && name in c0.index && c0.index[name] == id
    requires c.index == c0.index && c.queue == [id] + c0.queue
    requires c.entries == c0.entries[id := Found(c0.entries[id], of, now)]
    requires c0.entries[id].count == 0 || (of.err == 0 && !of.isDir && of.uniq == c0.entries[id].uniq)
    ensures Settled(c0, c, id, name, of, now)
  {
  }

  lemma RenamedSettled(c0: Cache, c: Cache, id: nat, other: nat, name: Name, of: Info, now: int)
    requires id in c0.entries && name in c0.index && c0.index[name] == id
    requires other !in c0.entries && other in c.entries && Anew(c.entries[other], name, of, now)
    requires c.index == c0.index[name := other] && c.queue == [other] + c0.queue
    requires c.entries == c0.entries[id := c0.entries[id].(close := true)][other := c.entries[other]]
    requires c0.entries[id].count > 0 && !(of.err == 0 && !of.isDir && of.uniq == c0.entries[id].uniq)
    ensures Settled(c0, c, id, name, of, now)
  {
  }

  ghost predicate Taken(c0: Cache, c1: Cache, name: Name) {
    && name in c0.index && c0.index[name] in c0.entries
    && var id := c0.index[name];
       && c1.entries == c0.entries[id := c0.entries[id].(uses := c0.entries[id].uses + 1)]
       && c1.index == c0.index && c1.queue == Without(c0.queue, id)
  }

  lemma SettledBecame(c0: Cache, c1: Cache, c: Cache, name: Name, of: Info, now: int)
    requires Taken(c0, c1, name) && Settled(c1, c, c0.index[name], name, of, now)
    ensures OthersStay(c0, c, name) && Became(c0, c, name, false, of, now)
  {
    hide Without;
  }

  lemma HitBecame(c0: Cache, c1: Cache, c: Cache, name: Name, of: Info, now: int)
    requires Taken(c0, c1, name)
    requires
      var id := c0.index[name];
      var e := c1.entries[id];
      && c.index == c1.index && c.queue == [id] + c1.queue && of.err == e.err && of.isDir == (of.err == 0 && e.isDir)
      && c.entries == c1.entries[id := e.(accessed := now, count := if IsFile(e) then e.count + 1 else e.count)]
    ensures OthersStay(c0, c, name) && Became(c0, c, name, true, of, now)
  {
    hide Without;
  }

  // What the file system has said: a file that is the one kept open is not opened again.
  ghost predicate FromDisk(entries: Entries, index: Index, testDir: bool, disk: Disk, name: Name, ok: bool, of: Info) {
    var there := name in index && index[name] in entries;
    var fd := if there then entries[index[name]].fd else INVALID;
    var known := if fd != INVALID then there && entries[index[name]].uniq == disk.uniq
                 else disk.isDir && (testDir || (there && entries[index[name]].isDir));
    && (ok <==> !disk.missing && (disk.noInfo ==> known))
    && (ok ==> of.err == 0 && of.uniq == disk.uniq && of.isDir == disk.isDir
               && (!of.isDir ==> of.fd == if known then fd else disk.fd))
    && (!ok ==> of.fd == INVALID && of.err == if disk.missing then disk.err else 0)
  }

  lemma NewDisk(c: Cache, of0: Info, disk: Disk, name: Name)
    requires name !in c.index && of0.fd == INVALID
    ensures forall ok, of: Info ::
              (ok <==> !disk.missing && (disk.noInfo ==> Unopened(of0, disk)))
              && (ok ==> of.err == 0 && of.uniq == disk.uniq && of.isDir == disk.isDir
                         && (!of.isDir ==> of.fd == if Unopened(of0, disk) then of0.fd else disk.fd))
              && (!ok ==> of.fd == INVALID && of.err == if disk.missing then disk.err else 0) ==>
                FromDisk(c.entries, c.index, of0.testDir, disk, name, ok, of)
  {
  }

  lemma RetestedDisk(c: Cache, info: Info, of0: Info, disk: Disk, name: Name, ok: bool, of: Info)
    requires name in c.index && c.index[name] in c.entries
    requires of0 == Retested(info, c.entries[c.index[name]]) && info.fd == INVALID
    requires ok <==> !disk.missing && (disk.noInfo ==> Unopened(of0, disk))
    requires ok ==> of.err == 0 && of.uniq == disk.uniq && of.isDir == disk.isDir
                    && (!of.isDir ==> of.fd == if Unopened(of0, disk) then of0.fd else disk.fd)
    requires !ok ==> of.fd == INVALID && of.err == if disk.missing then disk.err else 0
    ensures FromDisk(c.entries, c.index, info.testDir, disk, name, ok, of)
  {
  }

  // -------- what a user leaves --------

  // One user less. A listed entry becomes the most recently used one, and its descriptor is
  // closed when nobody uses it and it was asked for less than `minUses` times. A marked entry
  // goes with its last user.
  ghost predicate Left(c0: Cache, c: Cache, id: nat, minUses: nat, now: int) {
    && id in c0.entries && c0.entries[id].count > 0 && c.index == c0.index
    && var e := c0.entries[id];
       if Listed(c0.entries, c0.index, id) then
         && c.queue == [id] + Without(c0.queue, id)
         && c.entries == c0.entries[id := e.(count := e.count - 1, accessed := now,
                                              fd := if e.count == 1 && e.uses < minUses then INVALID else e.fd)]
       else
         && c.queue == c0.queue
         && c.entries == if e.count == 1 then c0.entries - {id} else c0.entries[id := e.(count := e.count - 1)]
  }

  // The open descriptors are those of the entries.
  lemma Descriptors(entries: Entries, index: Index, queue: seq<nat>, next: nat, open: set<int>, owner: Owners,
                    users: multiset<nat>, fd: int)
    requires Inv(entries, index, queue, next, open, owner, users, {}, {})
    ensures fd in open <==> fd != INVALID && exists id :: id in entries && entries[id].fd == fd
  {
    if fd in open {
      assert entries[owner[fd]].fd == fd;
    }
    if id :| id in entries && entries[id].fd == fd && fd != INVALID {
      assert EntryOk(entries, index, owner, users, id);
    }
  }

  // -------- what expires --------

  // The last entry of the queue leaves the index. Without users it goes, else it is marked.
  ghost predicate DropsLast(c0: Cache, c: Cache) {
    && c0.queue != [] && c0.queue[|c0.queue| - 1] in c0.entries
    && var id := c0.queue[|c0.queue| - 1];
       var e := c0.entries[id];
       && c.queue == c0.queue[..|c0.queue| - 1] && c.index == c0.index - {e.name}
       && c.entries == if e.count > 0 then c0.entries[id := e.(close := true)] else c0.entries - {id}
  }

  // These entries have left the index.
  ghost predicate Unlisted(c0: Cache, c: Cache, gone: seq<nat>) {
    && (forall n :: n in c.index <==> n in c0.index && c0.index[n] !in gone)
    && forall n :: n in c.index ==> c.index[n] == c0.index[n]
  }

  // They have gone, or wait for their users; the others are as they were.
  ghost predicate Retired(c0: Cache, c: Cache, gone: seq<nat>) {
    && (forall id :: id in c.entries ==> id in c0.entries)
    && forall id :: id in c0.entries ==>
         var e := c0.entries[id];
         if id !in gone then id in c.entries && c.entries[id] == e
         else if e.count > 0 then id in c.entries && c.entries[id] == e.(close := true)
         else id !in c.entries
  }

  // The last k entries of the queue have gone this way.
  ghost predicate Dropped(c0: Cache, c: Cache, k: nat) {
    && k <= |c0.queue| && c.queue == c0.queue[..|c0.queue| - k]
    && Unlisted(c0, c, c0.queue[|c0.queue| - k..]) && Retired(c0, c, c0.queue[|c0.queue| - k..])
  }

  // Each of the last k entries has not been used for longer than `inactive`, or it is the last
  // one and goes by force.
  ghost predicate Overdue(c0: Cache, k: nat, n0: nat, now: int, inactive: int) {
    k <= |c0.queue| && forall i {:trigger c0.queue[i]} :: |c0.queue| - k <= i < |c0.queue| ==>
      || (n0 == 0 && i == |c0.queue| - 1)
      || (c0.queue[i] in c0.entries && now - c0.entries[c0.queue[i]].accessed > inactive)
  }

  // Three entries at most go when the last one goes by force, and one less for each step of n0.
  // It stops before that only at an entry that is still active.
  ghost predicate Swept(c0: Cache, c: Cache, n0: nat, now: int, inactive: int) {
    && |c.queue| <= |c0.queue|
    && var k := |c0.queue| - |c.queue|;
       && Dropped(c0, c, k) && Overdue(c0, k, n0, now, inactive) && k <= (if n0 < 3 then 3 - n0 else 0)
       && (k + n0 < 3 && c.queue != [] ==>
             && k + n0 > 0 && c.queue[|c.queue| - 1] in c.entries
             && now - c.entries[c.queue[|c.queue| - 1]].accessed <= inactive)
  }

  lemma NoneDropped(c: Cache)
    ensures Dropped(c, c, 0)
  {
  }

  lemma NoneOverdue(c: Cache, n0: nat, now: int, inactive: int)
    ensures Overdue(c, 0, n0, now, inactive)
  {
  }

  lemma SweptIs(c0: Cache, c: Cache, k: nat, n0: nat, now: int, inactive: int)
    requires Dropped(c0, c, k) && Overdue(c0, k, n0, now, inactive) && k <= (if n0 < 3 then 3 - n0 else 0)
    requires k + n0 < 3 && c.queue != [] ==>
               && k + n0 > 0 && c.queue[|c.queue| - 1] in c.entries
               && now - c.entries[c.queue[|c.queue| - 1]].accessed <= inactive
    ensures Swept(c0, c, n0, now, inactive)
  {
    hide Overdue;
  }

  lemma SweptKeys(c0: Cache, c: Cache, n0: nat, now: int, inactive: int)
    requires Swept(c0, c, n0, now, inactive)
    ensures c.entries.Keys <= c0.entries.Keys && c.index.Keys <= c0.index.Keys
  {
  }

  ghost predicate Sound(c: Cache) {
    IndexOk(c.entries, c.index, c.queue, {})
  }

  lemma Listing(entries: Entries, index: Index, queue: seq<nat>, next: nat, open: set<int>, owner: Owners,
                users: multiset<nat>, pending: set<int>)
    requires Inv(entries, index, queue, next, open, owner, users, {}, pending)
    ensures Sound(Cache(entries, index, queue))
  {
  }

  // The entry that comes next is as it was.
  lemma StillThere(c0: Cache, c: Cache, k: nat)
    requires Dropped(c0, c, k) && c.queue != [] && Sound(c0)
    ensures k < |c0.queue| && c.queue[|c.queue| - 1] == c0.queue[|c0.queue| - 1 - k]
    ensures
      var id := c.queue[|c.queue| - 1];
      && id in c0.entries && id in c.entries && c.entries[id] == c0.entries[id] && id !in c0.queue[|c0.queue| - k..]
      && Listed(c0.entries, c0.index, id)
  {
    var q, n := c0.queue, |c0.queue| - 1 - k;
    assert q[n] in q;
    forall i | n < i < |q|
      ensures q[i] != q[n]
    {
    }
  }

  lemma MoreOverdue(c0: Cache, k: nat, n0: nat, now: int, inactive: int)
    requires Overdue(c0, k, n0, now, inactive) && k < |c0.queue|
    requires
      var id := c0.queue[|c0.queue| - 1 - k];
      k + n0 == 0 || (id in c0.entries && now - c0.entries[id].accessed > inactive)
    ensures Overdue(c0, k + 1, n0, now, inactive)
  {
  }

  lemma OneMoreDropped(c0: Cache, c1: Cache, c2: Cache, k: nat)
    requires Sound(c0) && Dropped(c0, c1, k) && DropsLast(c1, c2)
    ensures Dropped(c0, c2, k + 1)
  {
    hide Unlisted, Retired, Sound, Listed;
    StillThere(c0, c1, k);
    var q, n := c0.queue, |c0.queue| - 1 - k;
    assert q[n..] == [q[n]] + q[n + 1..];
    assert c2.queue == q[..n];
    OneUnlisted(c0, c1, c2, q[n], q[n + 1..]);
    OneRetired(c0, c1, c2, q[n], q[n + 1..]);
  }

  lemma OneUnlisted(c0: Cache, c1: Cache, c2: Cache, id: nat, gone: seq<nat>)
    requires Sound(c0) && Unlisted(c0, c1, gone) && Listed(c0.entries, c0.index, id)
    requires c2.index == c1.index - {c0.entries[id].name}
    ensures Unlisted(c0, c2, [id] + gone)
  {
    forall m | m in c0.index
      ensures c0.index[m] == id <==> m == c0.entries[id].name
    {
    }
  }

  lemma OneRetired(c0: Cache, c1: Cache, c2: Cache, id: nat, gone: seq<nat>)
    requires Retired(c0, c1, gone) && id in c0.entries && id !in gone
    requires
      var e := c0.entries[id];
      c2.entries == if e.count > 0 then c1.entries[id := e.(close := true)] else c1.entries - {id}
    ensures Retired(c0, c2, [id] + gone)
  {
  }

  // What is kept open is looked at through its descriptor.
  function Retested(of0: Info, e: Entry): Info {
    if e.fd == INVALID && e.err == 0 && !e.isDir then of0
    else of0.(testDir := of0.testDir || e.isDir, fd := e.fd, uniq := e.uniq)
  }

  lemma NameAt(entries: Entries, index: Index, id: nat)
    requires id in entries && Listed(entries, index, id)
    ensures entries[id].name in index && index[entries[id].name] == id && |index - {entries[id].name}| == |index| - 1
  {
    assert index.Keys - {entries[id].name} == (index - {entries[id].name}).Keys;
  }

  ghost function Reowned(owner: Owners, e: Entry, e': Entry, id: nat): Owners {
    if e'.fd == INVALID then owner - {e.fd} else (owner - {e.fd})[e'.fd := id]
  }

  // What an entry becomes when it takes over what has been found.
  function Found(e: Entry, of: Info, now: int): Entry {
    var e1 := e.(fd := of.fd, err := of.err, created := now, accessed := now);
    if of.err != 0 then e1
    else e1.(uniq := of.uniq, close := false, isDir := of.isDir, count := if of.isDir then e.count else e.count + 1)
  }

  // What has been found fits the entry: a file comes with the descriptor the entry has,
  // or with a new one, and then, like anything else than a file, only without users.
  ghost predicate Fits(e: Entry, of: Info, pending: set<int>) {
    if of.err == 0 && !of.isDir then
      && of.fd != INVALID && ((of.fd == e.fd && pending == {}) || (e.count == 0 && pending == {of.fd}))
    else of.fd == INVALID && e.count == 0 && pending == {}
  }

  lemma EmptyCache()
    ensures Inv(map[], map[], [], 2, {}, map[], multiset{}, {}, {})
  {
  }

  lemma LeaveEntry(entries: Entries, index: Index, queue: seq<nat>, next: nat, open: set<int>, owner: Owners,
                   users: multiset<nat>, loose: set<nat>, id: nat, e': Entry)
    requires Inv(entries, index, queue, next, open, owner, users, loose, {}) && id in users && id in entries
    requires
      var e := entries[id];
      && e'.name == e.name && e'.err == e.err && e'.isDir == e.isDir && e'.close == e.close && e'.count == e.count - 1
      && (e'.fd == e.fd || (e'.fd == INVALID && e'.count == 0)) && (e'.count == 0 ==> Listed(entries, index, id))
    ensures
      Inv(entries[id := e'], index, queue, next, if e'.fd == INVALID then open - {entries[id].fd} else open,
          Reowned(owner, entries[id], e', id), users - multiset{id}, loose, {})
  {
    assert EntryOk(entries, index, owner, users, id);
    assert Listed(entries[id := e'], index, id) <==> Listed(entries, index, id);
    var open' := if e'.fd == INVALID then open - {entries[id].fd} else open;
    Replace(entries, index, queue, next, open, owner, users, loose, {}, id, e', Reowned(owner, entries[id], e', id),
            users - multiset{id}, open', {});
  }

  lemma UpdateEntry(entries: Entries, index: Index, queue: seq<nat>, next: nat, open: set<int>, owner: Owners,
                    users: multiset<nat>, pending: set<int>, id: nat, of: Info, now: int, users': multiset<nat>)
    requires Inv(entries, index, queue, next, open, owner, users, {id}, pending) && id in entries
    requires Fits(entries[id], of, pending)
    requires users' == users + (if of.err == 0 && !of.isDir then multiset{id} else multiset{})
    ensures
      var e, e' := entries[id], Found(entries[id], of, now);
      var closed := e.fd != INVALID && e.fd != of.fd;
      && (closed ==> e.fd in open) && (of.fd != INVALID ==> of.fd in open)
      && Inv(entries[id := e'], index, queue, next, if closed then open - {e.fd} else open,
             Reowned(owner, e, e', id), users', {id}, {})
  {
    var e, e' := entries[id], Found(entries[id], of, now);
    assert EntryOk(entries, index, owner, users, id);
    assert Listed(entries, index, id) && Listed(entries[id := e'], index, id);
    var closed := e.fd != INVALID && e.fd != of.fd;
    Replace(entries, index, queue, next, open, owner, users, {id}, pending, id, e', Reowned(owner, e, e', id),
            users', if closed then open - {e.fd} else open, {});
  }

  lemma LoosenAll(entries: Entries, index: Index, queue: seq<nat>, next: nat, open: set<int>, owner: Owners,
                  users: multiset<nat>, pending: set<int>, id: nat)
    requires Inv(entries, index, queue, next, open, owner, users, {}, pending) && Listed(entries, index, id)
    ensures Inv(entries, index, Without(queue, id), next, open, owner, users, {id}, pending)
  {
    Loosen(entries, index, queue, id);
  }

  lemma FastenAll(entries: Entries, index: Index, queue: seq<nat>, next: nat, open: set<int>, owner: Owners,
                  users: multiset<nat>, pending: set<int>, id: nat)
    requires Inv(entries, index, queue, next, open, owner, users, {id}, pending)
    ensures Inv(entries, index, [id] + queue, next, open, owner, users, {}, pending)
  {
    Fasten(entries, index, queue, id);
  }

  lemma FreshId(entries: Entries, index: Index, queue: seq<nat>, next: nat, open: set<int>, owner: Owners,
                users: multiset<nat>, loose: set<nat>, pending: set<int>)
    requires Inv(entries, index, queue, next, open, owner, users, loose, pending)
    ensures next !in entries && next !in users && (forall fd :: fd in pending ==> fd !in owner)
  {
    forall id | id in entries
      ensures id < next
    {
      assert EntryOk(entries, index, owner, users, id);
    }
    assert users[next] > 0 ==> next in users;
  }

  lemma ZeroUsers(entries: Entries, index: Index, queue: seq<nat>, next: nat, open: set<int>, owner: Owners,
                  users: multiset<nat>, loose: set<nat>, pending: set<int>, id: nat)
    requires Inv(entries, index, queue, next, open, owner, users, loose, pending) && id in entries
    ensures entries[id].count == 0 <==> id !in users
  {
    assert EntryOk(entries, index, owner, users, id);
  }

  lemma LoosenLast(entries: Entries, index: Index, queue: seq<nat>, next: nat, open: set<int>, owner: Owners,
                   users: multiset<nat>, pending: set<int>)
    requires Inv(entries, index, queue, next, open, owner, users, {}, pending) && queue != []
    ensures Inv(entries, index, queue[..|queue| - 1], next, open, owner, users, {queue[|queue| - 1]}, pending)
  {
    var id, q := queue[|queue| - 1], queue[..|queue| - 1];
    assert queue == q + [id];
    assert forall i :: 0 <= i < |q| ==> q[i] == queue[i];
  }

  // The queue is empty exactly when the index is.
  lemma QueueCount(entries: Entries, index: Index, queue: seq<nat>, next: nat, open: set<int>, owner: Owners,
                   users: multiset<nat>, pending: set<int>)
    requires Inv(entries, index, queue, next, open, owner, users, {}, pending)
    ensures queue == [] <==> |index| == 0
    ensures forall id :: id in queue ==> id in entries
  {
    if queue == [] {
      assert forall n :: n !in index;
      assert index == map[];
    } else {
      assert queue[0] in queue;
    }
  }

  lemma PendingOpen(entries: Entries, index: Index, queue: seq<nat>, next: nat, open: set<int>, owner: Owners,
                    users: multiset<nat>, loose: set<nat>, pending: set<int>)
    requires Inv(entries, index, queue, next, open, owner, users, loose, pending)
    ensures forall fd :: fd in pending ==> fd in open
  {
  }

  // Entries with users keep their descriptors.
  ghost predicate HeldKept(users: multiset<nat>, entries: Entries, entries': Entries) {
    forall id {:trigger users[id]} ::
      id in users ==> id in entries && id in entries' && entries'[id].fd == entries[id].fd
  }

  // The cache has answered for `name`: what it says is what the entry of that name, the
  // most recently used one, holds, and a file comes with one more user of that entry.
  ghost predicate Answered(users0: multiset<nat>, entries0: Entries, users: multiset<nat>, entries: Entries,
                           index: Index, queue: seq<nat>, open: set<int>, name: Name, ok: bool, of: Info) {
    && HeldKept(users0, entries0, entries)
    && (name in index ==> queue != [] && queue[0] == index[name] && index[name] in entries
                          && entries[index[name]].err == of.err)
    && (ok ==> name in index && of.err == 0
               && entries[index[name]].fd == of.fd && entries[index[name]].uniq == of.uniq
               && entries[index[name]].isDir == of.isDir && (!of.isDir ==> of.fd != INVALID && of.fd in open))
    && (!ok && name in index ==> of.err != 0)
    && users == users0 + (if ok && !of.isDir && name in index then multiset{index[name]} else multiset{})
  }

  // The cached answer for a name is used as it is.
  predicate Hit(entries: Entries, index: Index, name: Name, info: Info, now: int) {
    && name in index && index[name] in entries
    && var e := entries[index[name]];
       && !(e.fd == INVALID && e.err == 0 && !e.isDir)
       && (info.uniq == 0 || info.uniq == e.uniq) && now - e.created < info.valid
  }

  lemma NotListed(entries: Entries, index: Index, name: Name, info: Info, disk: Disk, now: int)
    requires name !in index
    ensures !Hit(entries, index, name, info, now) && !Clash(entries, index, name, info, disk, now)
  {
  }

  lemma AnsweredFailed(users0: multiset<nat>, entries0: Entries, users: multiset<nat>, entries: Entries, index: Index,
                       queue: seq<nat>, open: set<int>, name: Name, of: Info)
    requires HeldKept(users0, entries0, entries) && name !in index && users == users0
    ensures Answered(users0, entries0, users, entries, index, queue, open, name, false, of)
  {
    hide HeldKept;
  }

  // A new entry answers for the name.
  lemma AnsweredNew(users0: multiset<nat>, entries0: Entries, users: multiset<nat>, entries: Entries, index: Index,
                    queue: seq<nat>, open: set<int>, name: Name, id: nat, of: Info, now: int)
    requires HeldKept(users0, entries0, entries) && name in index && index[name] == id && id in entries
    requires queue != [] && queue[0] == id && Anew(entries[id], name, of, now)
    requires of.err == 0 && !of.isDir ==> of.fd != INVALID && of.fd in open
    requires users == users0 + (if of.err == 0 && !of.isDir then multiset{id} else multiset{})
    ensures Answered(users0, entries0, users, entries, index, queue, open, name, of.err == 0, of)
  {
    hide HeldKept;
  }

  lemma AnsweredThrough(users0: multiset<nat>, entries0: Entries, entries1: Entries, users: multiset<nat>,
                        entries: Entries, index: Index, queue: seq<nat>, open: set<int>, name: Name, ok: bool, of: Info)
    requires HeldKept(users0, entries0, entries1)
    requires Answered(users0, entries1, users, entries, index, queue, open, name, ok, of)
    ensures Answered(users0, entries0, users, entries, index, queue, open, name, ok, of)
  {
    hide HeldKept;
    HeldTwice(users0, entries0, entries1, entries);
  }

  lemma HeldTwice(users: multiset<nat>, entries0: Entries, entries1: Entries, entries2: Entries)
    requires HeldKept(users, entries0, entries1) && HeldKept(users, entries1, entries2)
    ensures HeldKept(users, entries0, entries2)
  {
  }

  lemma HeldSame(users: multiset<nat>, entries: Entries, entries': Entries, id: nat)
    requires HeldKept(users, entries, entries) && id in entries && id in entries'
    requires entries' == entries[id := entries'[id]] && entries'[id].fd == entries[id].fd
    ensures HeldKept(users, entries, entries')
  {
  }

  lemma HeldRenewed(users: multiset<nat>, entries: Entries, id: nat, e: Entry)
    requires HeldKept(users, entries, entries) && id in entries && (id in users ==> e.fd == entries[id].fd)
    ensures HeldKept(users, entries, entries[id := e])
  {
  }

  // The look at the file finds a directory with the identity of the descriptor.
  predicate Reused(of0: Info, disk: Disk) {
    of0.fd != INVALID && of0.uniq == disk.uniq && disk.isDir && !disk.missing
  }

  // The entry of that name has a descriptor, is looked at again, and is now a directory with
  // the same identity: ngx_file_uniq is the inode number, whatever the device.
  predicate Clash(entries: Entries, index: Index, name: Name, info: Info, disk: Disk, now: int) {
    && name in index && index[name] in entries && !Hit(entries, index, name, info, now)
    && entries[index[name]].fd != INVALID && entries[index[name]].uniq == disk.uniq && disk.isDir && !disk.missing
  }

  // What is then left: the entry of a directory with the descriptor, which has been closed, or
  // which the users of the file still read from. Entry `id0` was the one of that name.
  ghost predicate Muddled(users: multiset<nat>, entries: Entries, index: Index, open: set<int>, name: Name,
                          entries0: Entries, id0: nat) {
    && id0 in entries0 && name in index && index[name] in entries
    && var d, fd := entries[index[name]], entries0[id0].fd;
       && d.isDir && d.err == 0 && d.count == 0 && d.name == name && d.fd == fd && fd != INVALID
       && d.uniq == entries0[id0].uniq
       && if entries0[id0].count == 0 then fd !in open
          else fd in open && id0 in users && id0 in entries && id0 != index[name] && entries[id0].fd == fd
  }

  lemma MuddledClosed(users: multiset<nat>, entries: Entries, index: Index, open: set<int>, name: Name,
                      entries0: Entries, id: nat, of: Info, now: int)
    requires id in entries0 && name in index && index[name] == id && entries0[id].name == name
    requires entries0[id].count == 0 && of.fd == entries0[id].fd && of.fd != INVALID && of.isDir && of.err == 0
    requires of.uniq == entries0[id].uniq && of.fd !in open && entries == entries0[id := Found(entries0[id], of, now)]
    ensures Muddled(users, entries, index, open, name, entries0, id)
  {
  }

  lemma MuddledShared(users: multiset<nat>, entries: Entries, index: Index, open: set<int>, name: Name,
                      entries0: Entries, id: nat, d: nat, of: Info, now: int)
    requires id in entries0 && name in index && index[name] == d && d != id && id in users && id in entries
    requires entries0[id].count > 0 && of.fd == entries0[id].fd && of.fd != INVALID && of.fd in open
    requires of.uniq == entries0[id].uniq && entries[id].fd == entries0[id].fd
    requires d in entries && entries[d] == Entry(name, now, now, of.fd, of.uniq, 0, 1, 0, false, true)
    ensures Muddled(users, entries, index, open, name, entries0, id)
  {
  }

  lemma MuddledSame(users: multiset<nat>, entries: Entries, index: Index, open: set<int>, name: Name,
                    entries0: Entries, entries1: Entries, id0: nat)
    requires Muddled(users, entries, index, open, name, entries1, id0) && id0 in entries0
    requires entries1[id0].fd == entries0[id0].fd && entries1[id0].count == entries0[id0].count
    requires entries1[id0].uniq == entries0[id0].uniq
    ensures Muddled(users, entries, index, open, name, entries0, id0)
  {
  }

  lemma KeptOpen(entries: Entries, index: Index, queue: seq<nat>, next: nat, open: set<int>, owner: Owners,
                 users: multiset<nat>, loose: set<nat>, pending: set<int>, id: nat)
    requires Inv(entries, index, queue, next, open, owner, users, loose, pending) && id in entries
    ensures entries[id].fd != INVALID ==> entries[id].fd in open
  {
    assert EntryOk(entries, index, owner, users, id);
  }

  lemma HeldAlong(users: multiset<nat>, entries: Entries, entries': Entries, id: nat)
    requires HeldKept(users, entries, entries') && id in users
    ensures id in entries && id in entries' && entries'[id].fd == entries[id].fd
  {
    assert users[id] > 0;
  }

  lemma NotInv(entries: Entries, index: Index, queue: seq<nat>, next: nat, open: set<int>, owner: Owners,
               users: multiset<nat>, id: nat)
    requires id in entries && !IsFile(entries[id]) && entries[id].fd != INVALID
    ensures !Inv(entries, index, queue, next, open, owner, users, {}, {})
  {
    assert !EntryOk(entries, index, owner, users, id);
  }

  lemma IndexAt(entries: Entries, index: Index, queue: seq<nat>, next: nat, open: set<int>, owner: Owners,
                users: multiset<nat>, name: Name)
    requires Inv(entries, index, queue, next, open, owner, users, {}, {}) && name in index
    ensures index[name] in entries && entries[index[name]].name == name && Listed(entries, index, index[name])
    ensures HeldKept(users, entries, entries)
  {
    hide EntriesOk, FdsOk;
    HeldEntries(entries, index, queue, next, open, owner, users, {}, {});
  }

  lemma UseEntry(entries: Entries, index: Index, queue: seq<nat>, next: nat, open: set<int>, owner: Owners,
                 users: multiset<nat>, loose: set<nat>, id: nat)
    requires Inv(entries, index, queue, next, open, owner, users, loose, {}) && id in entries
    ensures Inv(entries[id := entries[id].(uses := entries[id].uses + 1)], index, queue, next, open, owner, users,
                loose, {})
  {
    assert EntryOk(entries, index, owner, users, id);
    var e' := entries[id].(uses := entries[id].uses + 1);
    SameOwner(entries, open, owner, {}, id);
    assert Listed(entries[id := e'], index, id) <==> Listed(entries, index, id);
    Replace(entries, index, queue, next, open, owner, users, loose, {}, id, e', owner, users, open, {});
  }

  lemma SameOwner(entries: Entries, open: set<int>, owner: Owners, pending: set<int>, id: nat)
    requires FdsOk(entries, open, owner, pending) && id in entries
    requires entries[id].fd != INVALID ==> entries[id].fd in owner && owner[entries[id].fd] == id
    ensures owner == if entries[id].fd == INVALID then owner - {entries[id].fd}
              else (owner - {entries[id].fd})[entries[id].fd := id]
  {
  }

  lemma HitEntry(entries: Entries, index: Index, queue: seq<nat>, next: nat, open: set<int>, owner: Owners,
                 users: multiset<nat>, loose: set<nat>, id: nat, e': Entry)
    requires Inv(entries, index, queue, next, open, owner, users, loose, {}) && id in entries
    requires
      var e := entries[id];
      && !(e.fd == INVALID && IsFile(e))
      && e' == e.(accessed := e'.accessed, count := if IsFile(e) then e.count + 1 else e.count)
    ensures
      var users' := users + (if IsFile(entries[id]) then multiset{id} else multiset{});
      Inv(entries[id := e'], index, queue, next, open, owner, users', loose, {})
    ensures entries[id].fd != INVALID ==> entries[id].fd in open
  {
    assert EntryOk(entries, index, owner, users, id);
    var users' := users + (if IsFile(entries[id]) then multiset{id} else multiset{});
    SameOwner(entries, open, owner, {}, id);
    assert Listed(entries[id := e'], index, id) <==> Listed(entries, index, id);
    Replace(entries, index, queue, next, open, owner, users, loose, {}, id, e', owner, users', open, {});
  }

  // A descriptor just opened is pending.
  lemma PendingAdded(entries: Entries, index: Index, queue: seq<nat>, next: nat, open: set<int>, owner: Owners,
                     users: multiset<nat>, loose: set<nat>, fd: int)
    requires Inv(entries, index, queue, next, open, owner, users, loose, {}) && fd !in open && fd != INVALID
    ensures Inv(entries, index, queue, next, open + {fd}, owner, users, loose, {fd})
    ensures forall id :: id in entries ==> entries[id].fd != fd
  {
    hide IndexOk;
    forall id | id in entries
      ensures entries[id].fd != fd
    {
      assert EntryOk(entries, index, owner, users, id);
    }
  }

  lemma EntryKinds(entries: Entries, index: Index, queue: seq<nat>, next: nat, open: set<int>, owner: Owners,
                   users: multiset<nat>, loose: set<nat>, pending: set<int>, id: nat)
    requires Inv(entries, index, queue, next, open, owner, users, loose, pending) && id in entries
    ensures
      var e := entries[id];
      (e.err != 0 || e.isDir || e.fd == INVALID ==> e.count == 0) && (e.err != 0 || e.isDir ==> e.fd == INVALID)
  {
    hide IndexOk, FdsOk;
    assert EntryOk(entries, index, owner, users, id);
  }

  lemma HeldAt(users: multiset<nat>, entries: Entries, id: nat)
    requires HeldKept(users, entries, entries) && id in users
    ensures id in entries
  {
    assert users[id] > 0;
  }

  lemma HeldLess(users: multiset<nat>, entries: Entries, entries': Entries, id: nat)
    requires HeldKept(users, entries, entries) && id in users && id in entries
    requires entries.Keys - {id} <= entries'.Keys && forall x :: x in entries && x != id ==> entries'[x] == entries[x]
    requires users[id] == 1 || (id in entries' && entries'[id].fd == entries[id].fd)
    ensures HeldKept(users - multiset{id}, entries, entries')
  {
    var users' := users - multiset{id};
    forall x | x in users'
      ensures x in entries && x in entries' && entries'[x].fd == entries[x].fd
    {
      assert users'[x] > 0 && users[x] > 0;
      assert x in entries;
      assert x != id ==> x in entries.Keys - {id} && x in entries'.Keys;
    }
  }

  lemma HeldFreed(users: multiset<nat>, entries: Entries, id: nat)
    requires HeldKept(users, entries, entries) && id in entries && users[id] == 1
    ensures HeldKept(users - multiset{id}, entries, entries - {id})
  {
    HeldLess(users, entries, entries - {id}, id);
  }

  lemma HeldChanged(users: multiset<nat>, entries: Entries, id: nat, e: Entry)
    requires HeldKept(users, entries, entries) && id in users && id in entries
    requires users[id] == 1 || e.fd == entries[id].fd
    ensures HeldKept(users - multiset{id}, entries, entries[id := e])
  {
    HeldLess(users, entries, entries[id := e], id);
  }

  lemma HeldMore(users: multiset<nat>, entries: Entries, entries1: Entries, entries2: Entries, id: nat)
    requires HeldKept(users, entries, entries1) && id !in users && id in entries2
             && entries2 == entries1[id := entries2[id]]
    ensures HeldKept(users, entries, entries2)
  {
  }

  lemma HeldEntries(entries: Entries, index: Index, queue: seq<nat>, next: nat, open: set<int>, owner: Owners,
                    users: multiset<nat>, loose: set<nat>, pending: set<int>)
    requires Inv(entries, index, queue, next, open, owner, users, loose, pending)
    ensures HeldKept(users, entries, entries)
    ensures forall id {:trigger users[id]} :: id in users ==>
              var e := entries[id];
              e.count == users[id] && IsFile(e) && e.fd != INVALID && e.fd in open
              && (e.close <==> !Listed(entries, index, id))
  {
    forall id | id in users
      ensures id in entries
      ensures
        var e := entries[id];
        e.count == users[id] && IsFile(e) && e.fd != INVALID && e.fd in open
        && (e.close <==> !Listed(entries, index, id))
    {
      assert users[id] > 0;
      assert EntryOk(entries, index, owner, users, id);
    }
  }

  // A file in use becomes a directory with the same inode number, on another device, and is
  // then removed: three requests later its descriptor is closed under the user of the file.
  method ClosedUnderUser(name: Name, hash: Name -> nat) returns (c: OpenFileCache, user: nat)
    ensures user in c.users && user in c.entries && c.entries[user].fd != INVALID && c.entries[user].fd !in c.open
  {
    hide Inv, HeldKept, OpenFileCache.Indexed;
    c := new OpenFileCache(4, 60, hash);
    var info := Info(INVALID, 1, 0, false, false, false, 60);
    var ok, of;
    ghost var mid;
    ok, of, mid := c.Open(name, info, Disk(false, 0, 7, false, 3, false), 0, Junk(false, false, 0));
    user := c.Find(name);
    HeldEntries(c.entries, c.index, c.queue, c.next, c.open, c.owner, c.users, {}, {});
    assert user in c.users;
    ok, of, mid := c.Open(name, info, Disk(false, 0, 7, true, 4, false), 1, Junk(false, false, 0));
    ok, of := c.OpenGone(name, info, Disk(true, 2, 0, false, 5, false), 2);
  }
}
