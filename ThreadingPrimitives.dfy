/**
 * AXMultiReadLock, its scoped read and write guards, and AXMultiReadLockedObject.
 *
 * The lock's state is the owning writer (0 when there is none) and the list of
 * reader ids, in the order they locked, duplicates allowed. An id is the address
 * of the object that locks, so it is never 0. Every compare-and-set on the
 * internal state flag is taken to succeed (one thread), and the spinning forms
 * (WriteLock, ReadLock) require that their Try form would succeed.
 */
module ThreadingPrimitives {
  import opened Options

  /** std::list::remove: every entry equal to x goes, the others keep their order. */
  function RemoveAll(s: seq<nat>, x: nat): (r: seq<nat>)
    ensures x !in r
    ensures |r| <= |s|
    ensures forall y :: y != x ==> multiset(r)[y] == multiset(s)[y]
  {
    if s == [] then []
    else
      assert s == [s[0]] + s[1..];
      if s[0] == x then RemoveAll(s[1..], x) else [s[0]] + RemoveAll(s[1..], x)
  }

  /** Removing an id that holds no entry changes nothing. */
  lemma {:induction false} RemoveAllAbsent(s: seq<nat>, x: nat)
    requires x !in s
    ensures RemoveAll(s, x) == s
  {
    if s != [] {
      RemoveAllAbsent(s[1..], x);
    }
  }

  /** An entry appended for x is removed together with x's earlier entries. */
  lemma {:induction false} RemoveAllAppended(s: seq<nat>, x: nat)
    ensures RemoveAll(s + [x], x) == RemoveAll(s, x)
  {
    if s == [] {
      assert [] + [x] == [x];
      assert [x][1..] == [];
    } else {
      assert (s + [x])[1..] == s[1..] + [x];
      RemoveAllAppended(s[1..], x);
    }
  }

  class MultiReadLock {
    /** mWriteLock: the id of the writer, 0 when there is none. */
    var writer: nat
    /** mReadLocks */
    var readers: seq<nat>

    /** A writer present means no readers. */
    ghost predicate Valid()
      reads this
    {
      writer != 0 ==> readers == []
    }

    /** A fresh lock has no writer and no readers. */
    constructor ()
      ensures Valid() && writer == 0 && readers == []
    {
      writer := 0;
      readers := [];
    }

    /**
     * TryWriteLock: installs the caller as writer only when there are no
     * readers and no writer; the result is whether the caller now owns the
     * write lock, so the current owner gets true again.
     */
    method TryWriteLock(id: nat) returns (ok: bool)
      requires Valid() && id != 0
      modifies this`writer
      ensures Valid()
      ensures writer == (if old(readers) == [] && old(writer) == 0 then id else old(writer))
      ensures ok <==> writer == id
      ensures ok <==> old(readers) == [] && (old(writer) == 0 || old(writer) == id)
    {
      if readers == [] && writer == 0 {
        writer := id;
      }
      ok := HasWriteLock(id);
    }

    /** WriteLock: spins on TryWriteLock, so it can only complete when that would succeed. */
    method WriteLock(id: nat)
      requires Valid() && id != 0
      requires readers == [] && (writer == 0 || writer == id)
      modifies this`writer
      ensures Valid() && writer == id
    {
      var ok := TryWriteLock(id);
    }

    /** ReleaseWriteLock: clears the writer only if the caller owns it. */
    method ReleaseWriteLock(id: nat)
      requires Valid() && id != 0
      modifies this`writer
      ensures Valid()
      ensures writer == if old(writer) == id then 0 else old(writer)
    {
      if writer == id {
        writer := 0;
      }
    }

    /** HasWriteLock: whether the caller is the writer. */
    function HasWriteLock(id: nat): (r: bool)
      reads this
      requires id != 0
      ensures r ==> writer != 0
      ensures r <==> writer == id
    {
      writer == id
    }

    /**
     * TryReadLock: fails while a writer exists; otherwise appends the caller to
     * the reader list (again, if it is already there) and succeeds.
     */
    method TryReadLock(id: nat) returns (ok: bool)
      requires Valid() && id != 0
      modifies this`readers
      ensures Valid()
      ensures ok <==> writer == 0
      ensures readers == if ok then old(readers) + [id] else old(readers)
    {
      if writer != 0 {
        return false;
      }
      readers := readers + [id];
      ok := true;
    }

    /** ReadLock: spins on TryReadLock, so it can only complete when no writer exists. */
    method ReadLock(id: nat)
      requires Valid() && id != 0 && writer == 0
      modifies this`readers
      ensures Valid()
      ensures readers == old(readers) + [id]
    {
      var ok := TryReadLock(id);
    }

    /** ReleaseReadLock: removes every entry of the caller, leaving other readers as they were. */
    method ReleaseReadLock(id: nat)
      requires Valid() && id != 0
      modifies this`readers
      ensures Valid()
      ensures readers == RemoveAll(old(readers), id)
    {
      readers := RemoveAll(readers, id);
    }

    /** HasReadLock: false whenever a writer exists, otherwise whether the caller is a reader. */
    method HasReadLock(id: nat) returns (r: bool)
      requires Valid() && id != 0
      ensures r <==> writer == 0 && id in readers
    {
      if writer != 0 {
        return false;
      }
      var i := 0;
      while i < |readers|
        invariant 0 <= i <= |readers|
        invariant id !in readers[..i]
      {
        if readers[i] == id {
          return true;
        }
        assert readers[..i + 1] == readers[..i] + [readers[i]];
        i := i + 1;
      }
      assert readers[..i] == readers;
      r := false;
    }

    /** ReleaseLock: ReleaseReadLock, then ReleaseWriteLock. */
    method ReleaseLock(id: nat)
      requires Valid() && id != 0
      modifies this
      ensures Valid()
      ensures readers == RemoveAll(old(readers), id)
      ensures writer == if old(writer) == id then 0 else old(writer)
    {
      ReleaseReadLock(id);
      ReleaseWriteLock(id);
    }
  }

  /**
   * AXMultiReadLock_ScopedRead: read-locks in its constructor and releases in
   * its destructor (Release here), with its own address as the id.
   */
  class ScopedRead {
    const lock: MultiReadLock
    const id: nat

    constructor (lock: MultiReadLock, id: nat)
      requires lock.Valid() && id != 0 && lock.writer == 0
      modifies lock
      ensures this.lock == lock && this.id == id
      ensures lock.Valid()
      ensures lock.readers == old(lock.readers) + [id] && lock.writer == old(lock.writer)
    {
      this.lock := lock;
      this.id := id;
      new;
      lock.ReadLock(id);
    }

    /** The destructor. */
    method Release()
      requires lock.Valid() && id != 0
      modifies lock
      ensures lock.Valid()
      ensures lock.readers == RemoveAll(old(lock.readers), id) && lock.writer == old(lock.writer)
    {
      lock.ReleaseReadLock(id);
    }
  }

  /**
   * AXMultiReadLock_ScopedWrite: write-locks in its constructor and releases
   * the write lock in its destructor, with its own address as the id.
   */
  class ScopedWrite {
    const lock: MultiReadLock
    const id: nat

    constructor (lock: MultiReadLock, id: nat)
      requires lock.Valid() && id != 0
      requires lock.readers == [] && lock.writer == 0
      modifies lock
      ensures this.lock == lock && this.id == id
      ensures lock.Valid() && lock.writer == id && lock.readers == old(lock.readers)
    {
      this.lock := lock;
      this.id := id;
      new;
      lock.WriteLock(id);
    }

    /** The destructor. */
    method Release()
      requires lock.Valid() && id != 0
      modifies lock
      ensures lock.Valid() && lock.readers == old(lock.readers)
      ensures lock.writer == if old(lock.writer) == id then 0 else old(lock.writer)
    {
      lock.ReleaseWriteLock(id);
    }
  }

  /**
   * A scoped read guard whose id held no read entry leaves the reader list as
   * it found it; a scoped write guard on a free lock leaves it free.
   */
  lemma ScopedReadRestores(before: seq<nat>, id: nat)
    requires id !in before
    ensures RemoveAll(before + [id], id) == before
  {
    RemoveAllAppended(before, id);
    RemoveAllAbsent(before, id);
  }

  /**
   * AXMultiReadLockedObject: an object guarded by its own lock. Every accessor
   * changes the lock state and none releases anything: the caller must call
   * ReleaseLock when done.
   */
  class LockedObject<T> {
    const lock: MultiReadLock
    var obj: T

    ghost predicate Valid()
      reads this, lock
    {
      lock.Valid()
    }

    constructor (obj: T)
      ensures Valid() && fresh(lock)
      ensures this.obj == obj && lock.writer == 0 && lock.readers == []
    {
      this.obj := obj;
      lock := new MultiReadLock();
    }

    /** GetRead: read-locks for the caller, then returns the object; needs no writer. */
    method GetRead(id: nat) returns (o: T)
      requires Valid() && id != 0 && lock.writer == 0
      modifies lock
      ensures Valid() && o == obj
      ensures lock.readers == old(lock.readers) + [id] && lock.writer == old(lock.writer)
    {
      lock.ReadLock(id);
      o := obj;
    }

    /** TryGetRead: the object iff TryReadLock succeeded. */
    method TryGetRead(id: nat) returns (o: Option<T>)
      requires Valid() && id != 0
      modifies lock
      ensures Valid() && lock.writer == old(lock.writer)
      ensures o.Some? <==> old(lock.writer) == 0
      ensures o.Some? ==> o.value == obj && lock.readers == old(lock.readers) + [id]
      ensures o.None? ==> lock.readers == old(lock.readers)
    {
      var ok := lock.TryReadLock(id);
      o := if ok then Some(obj) else None;
    }

    /** GetWrite: write-locks for the caller; needs no readers and no other writer. */
    method GetWrite(id: nat) returns (o: T)
      requires Valid() && id != 0
      requires lock.readers == [] && (lock.writer == 0 || lock.writer == id)
      modifies lock
      ensures Valid() && o == obj
      ensures lock.writer == id && lock.readers == old(lock.readers)
    {
      lock.WriteLock(id);
      o := obj;
    }

    /** TryGetWrite: the object iff TryWriteLock succeeded. */
    method TryGetWrite(id: nat) returns (o: Option<T>)
      requires Valid() && id != 0
      modifies lock
      ensures Valid() && lock.readers == old(lock.readers)
      ensures o.Some? <==> old(lock.readers) == [] && (old(lock.writer) == 0 || old(lock.writer) == id)
      ensures o.Some? ==> o.value == obj && lock.writer == id
      ensures o.None? ==> lock.writer == old(lock.writer)
    {
      var ok := lock.TryWriteLock(id);
      o := if ok then Some(obj) else None;
    }

    /** ReleaseLock, inherited from the lock. */
    method ReleaseLock(id: nat)
      requires Valid() && id != 0
      modifies lock
      ensures Valid()
      ensures lock.readers == RemoveAll(old(lock.readers), id)
      ensures lock.writer == if old(lock.writer) == id then 0 else old(lock.writer)
    {
      lock.ReleaseLock(id);
    }
  }
}
