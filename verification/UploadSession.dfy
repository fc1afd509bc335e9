/** One upload session (upload/session.go, upload/spool.go): bytes are appended to
    a buffer that moves to a file once it grows too large; snapshots share the
    buffer or the file. Every call into the file system may fail. */
module UploadSession {
  import opened Wrappers

  /** The directory of session files. */
  class Disk {
    var files: map<string, seq<Byte>>

    constructor ()
      ensures files == map[]
    {
      files := map[];
    }
  }

  /** A snapshot: its size and the bytes its digest was taken over, and either a
      slice of the session's buffer or the session's file. */
  datatype Spool = Memory(size: nat, hashed: seq<Byte>, mem: array<Byte>) | File(size: nat, hashed: seq<Byte>)

  /** What the file system does in one write: whether the file cannot be created,
      spilling into it or removing it again fails, how many bytes it takes at most,
      and whether it reports an error. */
  datatype DiskIo = DiskIo(createFails: bool, spillFails: bool, removeFails: bool, gives: nat, writeFails: bool)

  predicate Spills(io: DiskIo) { !io.createFails && !io.spillFails }

  predicate Takes(io: DiskIo, n: nat) { io.gives >= n && !io.writeFails }

  ghost predicate AllFine(chunks: seq<seq<Byte>>, ios: seq<DiskIo>)
    requires |ios| == |chunks|
  {
    forall k :: 0 <= k < |ios| ==> Spills(ios[k]) && Takes(ios[k], |chunks[k]|)
  }

  datatype SpoolResult = Taken(spool: Spool) | UnknownSession

  function Flatten(chunks: seq<seq<Byte>>): seq<Byte> {
    if chunks == [] then [] else Flatten(chunks[..|chunks| - 1]) + chunks[|chunks| - 1]
  }

  class Session {
    const path: string
    const disk: Disk
    const maxInMemory: nat
    var data: array<Byte>          // the buffer: its first len bytes
    var len: nat
    var open: bool                 // the file, once spilled
    var size: nat
    var hashed: seq<Byte>          // what the running hash has seen
    var closed: bool
    var removed: bool
    ghost var accepted: seq<Byte>  // every byte a write reported as written
    ghost var spools: seq<Spool>   // every snapshot ever taken
    ghost var arrays: set<array<Byte>>

    /** Where the session's bytes are. */
    ghost function Bytes(): seq<Byte>
      requires len <= data.Length && (open ==> path in disk.files)
      reads this, data, disk
    {
      if open then disk.files[path] else data[..len]
    }

    /** Bytes, size and hash are all that was accepted; memory stays bounded. */
    ghost predicate Consistent()
      reads this, data, disk
    {
      && size == |accepted| && hashed == accepted
      && len <= data.Length && (removed ==> closed && path !in disk.files)
      && (!closed ==> (open ==> path in disk.files && len == 0) && Bytes() == accepted && (!open ==> len <= maxInMemory))
    }

    /** A snapshot still reads what had been accepted when it was taken: from its
        slice, or from the file as long as that exists. */
    ghost predicate Intact(sp: Spool)
      reads this, disk, arrays
    {
      && sp.size <= |accepted| && sp.hashed == accepted[..sp.size]
      && match sp
         case Memory(n, _, mem) =>
           && mem in arrays && n <= mem.Length && mem[..n] == accepted[..n]
           && (mem == data ==> n <= len)
         case File(n, _) =>
           (closed || open) && (path in disk.files ==> n <= |disk.files[path]| && disk.files[path][..n] == accepted[..n])
    }

    ghost predicate Valid()
      reads this, data, disk, arrays
    {
      && Consistent() && data in arrays && forall k :: 0 <= k < |spools| ==> Intact(spools[k])
    }

    constructor (path: string, disk: Disk, maxInMemory: nat)
      requires path !in disk.files
      ensures Valid() && this.path == path && this.disk == disk && this.maxInMemory == maxInMemory
      ensures accepted == [] && spools == [] && !closed && fresh(arrays)
    {
      this.path, this.disk, this.maxInMemory := path, disk, maxInMemory;
      var empty := new Byte[0];
      data, len, open, size, hashed, closed, removed := empty, 0, false, 0, [], false, false;
      accepted, spools, arrays := [], [], {empty};
    }

    /** Only this session's file has changed. */
    twostate predicate OnlyMyFile()
      reads this, disk
    {
      forall f :: f != path ==> (f in disk.files <==> f in old(disk.files)) && (f in disk.files ==> disk.files[f] == old(disk.files)[f])
    }

    /** What any step does to the bytes a snapshot may have: the buffer is only
        ever appended to or abandoned for a new one, the file only grows. */
    twostate predicate Grows()
      reads this, data, disk, arrays
    {
      && old(accepted) <= accepted && old(arrays) <= arrays && spools == old(spools)
      && (forall a :: a in old(arrays) && a != old(data) ==> unchanged(a))
      && old(data) in arrays
      && (forall k :: 0 <= k < old(len) && k < old(data.Length) ==> old(data)[k] == old(data[k]))
      && (if data == old(data) then old(len) <= len else data !in old(arrays))
      && (old(closed) || old(open) ==> closed || open)
      && (old(closed || open) && path in disk.files ==> path in old(disk.files) && old(disk.files[path]) <= disk.files[path])
    }

    twostate lemma {:induction false} StaysIntact(sp: Spool)
      requires old(allocated(sp)) && old(Intact(sp)) && Grows()
      ensures Intact(sp)
    {
      match sp {
        case Memory(n, _, mem) =>
          assert mem == old(data) ==> forall k :: 0 <= k < n ==> mem[k] == old(mem[k]);
          assert mem != old(data) ==> mem[..] == old(mem[..]);
          assert forall k :: 0 <= k < n ==> mem[k] == old(mem[k]) == old(mem[..n][k]);
          assert mem[..n] == old(mem[..n]);
        case File(n, _) =>
      }
    }

    /** Bytes, size and hash are consistent and every snapshot is as it was. */
    twostate lemma {:induction false} StaysValid()
      requires old(Valid()) && old(allocated(spools)) && Consistent() && data in arrays && Grows()
      ensures Valid()
    {
      forall k | 0 <= k < |spools| ensures Intact(spools[k]) { StaysIntact(spools[k]); }
    }

    /** Room for n more bytes: the array itself, or a larger copy. */
    method MakeRoom(n: nat) returns (room: array<Byte>)
      requires len <= data.Length
      ensures room == data || fresh(room)
      ensures len + n <= room.Length && room[..len] == data[..len]
    {
      if len + n <= data.Length {
        return data;
      }
      room := new Byte[2 * (len + n)];
      Fill(room, 0, data[..len]);
    }

    /** bytes.Buffer.Write: in place when there is room, else into a larger array. */
    method BufferWrite(p: seq<Byte>)
      requires Valid() && !closed && !open && size + |p| <= maxInMemory
      modifies this, data
      ensures Valid() && accepted == old(accepted) + p && spools == old(spools)
      ensures closed == old(closed) && open == old(open) && removed == old(removed) && fresh(arrays - old(arrays))
      ensures data == old(data) || fresh(data)
    {
      hide Intact;
      assert data[..len] == accepted;
      var room := FillRoom(p);
      data := room;
      arrays := arrays + {room};
      len := len + |p|;
      hashed := hashed + p;
      size := size + |p|;
      accepted := accepted + p;
      StaysValid();
    }

    /** The bytes and p after them, in an array that has room. */
    method FillRoom(p: seq<Byte>) returns (room: array<Byte>)
      requires len <= data.Length
      modifies data
      ensures room == data || fresh(room)
      ensures len + |p| <= room.Length && room[..len + |p|] == old(data[..len]) + p
      ensures forall k :: 0 <= k < len ==> data[k] == old(data[k])
    {
      room := MakeRoom(|p|);
      Fill(room, len, p);
      assert room[..len + |p|] == room[..len] + p;
      assert room == data ==> forall k :: 0 <= k < len ==> data[k] == room[..len][k] == old(data[..len])[k];
    }

    /** spill: the file is created anew, gets the buffer and takes its place. When
        creating or writing fails the session keeps its buffer; the file a failed
        write leaves may itself fail to go away. */
    method Spill(io: DiskIo) returns (ok: bool)
      requires Valid() && !closed && !open
      modifies this, disk
      ensures Valid() && accepted == old(accepted) && spools == old(spools) && ok == open
      ensures closed == old(closed) && removed == old(removed) && fresh(arrays - old(arrays)) && OnlyMyFile()
      ensures ok <==> path !in old(disk.files) && !io.createFails && !io.spillFails
      ensures if ok then fresh(data) else data == old(data) && len == old(len)
    {
      hide Intact;
      if path in disk.files || io.createFails {
        return false;
      }
      if io.spillFails {
        if io.removeFails {
          disk.files := disk.files[path := data[..if io.gives <= len then io.gives else len]];
        }
        StaysValid();
        return false;
      }
      disk.files := disk.files[path := data[..len]];
      open := true;
      var empty := new Byte[0];
      data, len := empty, 0;
      arrays := arrays + {empty};
      StaysValid();
      return true;
    }

    /** The file takes some prefix of the bytes. */
    method FileWrite(p: seq<Byte>, io: DiskIo) returns (n: nat)
      requires Valid() && !closed && open
      modifies this, disk
      ensures n == (if io.gives <= |p| then io.gives else |p|) && Valid() && accepted == old(accepted) + p[..n]
      ensures spools == old(spools)
      ensures closed == old(closed) && open && removed == old(removed) && arrays == old(arrays) && OnlyMyFile()
      ensures data == old(data)
    {
      hide Intact;
      n := if io.gives <= |p| then io.gives else |p|;
      disk.files := disk.files[path := disk.files[path] + p[..n]];
      hashed := hashed + p[..n];
      size := size + n;
      accepted := accepted + p[..n];
      StaysValid();
    }

    /** write: what it reports is exactly what the session has gained. It fails only
        past the memory limit, where the file cannot be made or does not take it. */
    method Write(p: seq<Byte>, io: DiskIo) returns (n: nat, ok: bool)
      requires Valid() && !closed
      modifies this, data, disk
      ensures n <= |p| && (ok ==> n == |p|)
      ensures Valid() && accepted == old(accepted) + p[..n] && spools == old(spools)
      ensures closed == old(closed) && fresh(arrays - old(arrays)) && OnlyMyFile()
      ensures data == old(data) || fresh(data)
      ensures ok <==>
        || (!old(open) && old(size) + |p| <= maxInMemory)
        || (Takes(io, |p|) && (old(open) || (path !in old(disk.files) && Spills(io))))
      ensures (old(open) ==> open) && (ok ==> open || disk.files == old(disk.files))
    {
      hide Intact;
      if !open && size + |p| > maxInMemory {
        var spilled := Spill(io);
        if !spilled {
          return 0, false;
        }
      }
      if open {
        n := FileWrite(p, io);
        return n, n == |p| && !io.writeFails;
      }
      assert p[..|p|] == p;
      BufferWrite(p);
      return |p|, true;
    }

    /** Append: a request body in the pieces it arrives in. What the session has
        gained is a prefix of the body, all of it when there was no error; a
        closed session gains nothing. */
    method Append(chunks: seq<seq<Byte>>, ios: seq<DiskIo>, readFails: bool) returns (offset: nat, ok: bool)
      requires Valid() && |ios| == |chunks|
      modifies this, data, disk
      ensures Valid() && spools == old(spools) && OnlyMyFile() && offset == |accepted|
      ensures old(accepted) <= accepted <= old(accepted) + Flatten(chunks)
      ensures ok ==> accepted == old(accepted) + Flatten(chunks) && !readFails
      ensures old(closed) ==> !ok && accepted == old(accepted) && disk.files == old(disk.files)
      ensures closed == old(closed)
      ensures !old(closed) && !readFails && (old(open) || path !in old(disk.files)) && AllFine(chunks, ios) ==> ok
    {
      hide Valid, Flatten;
      SizeIsAccepted();
      if closed {
        return size, false;
      }
      ghost var was := accepted;
      NothingYet(was, chunks);
      for k := 0 to |chunks|
        invariant Valid() && !closed && spools == old(spools) && OnlyMyFile()
        invariant data == old(data) || fresh(data)
        invariant accepted == was + Flatten(chunks[..k])
        invariant old(open) || path !in old(disk.files) ==> open || path !in disk.files
      {
        var n, written := Write(chunks[k], ios[k]);
        FlattenNext(was, chunks, k, n);
        SizeIsAccepted();
        if !written {
          return size, false;
        }
      }
      assert chunks[..|chunks|] == chunks;
      SizeIsAccepted();
      return size, !readFails;
    }

    lemma {:induction false} SizeIsAccepted()
      requires Valid()
      ensures size == |accepted|
    {
    }

    /** Spool: the bytes so far, shared, not copied. */
    method Snapshot() returns (r: SpoolResult)
      requires Valid()
      modifies this`spools
      ensures Valid() && (r.UnknownSession? <==> closed)
      ensures r.Taken? ==> spools == old(spools) + [r.spool] && r.spool.size == |accepted| && r.spool.hashed == accepted
      ensures r.UnknownSession? ==> spools == old(spools)
    {
      if closed {
        return UnknownSession;
      }
      var sp := if open then File(size, hashed) else Memory(size, hashed, data);
      spools := spools + [sp];
      assert accepted[..size] == accepted;
      forall k | 0 <= k < |spools| ensures Intact(spools[k]) {
        if k < |old(spools)| { assert old(Intact(spools[k])); }
      }
      return Taken(sp);
    }

    /** Spool.Open and a read to the end: the snapshot's bytes, or an error once
        the file is gone. */
    method ReadSpool(sp: Spool) returns (ok: bool, bytes: seq<Byte>)
      requires Valid() && sp in spools
      ensures ok ==> bytes == accepted[..sp.size] == sp.hashed
      ensures sp.Memory? || (!closed && path in disk.files) ==> ok
    {
      assert Intact(sp);
      match sp
      case Memory(n, _, mem) =>
        return true, mem[..n];
      case File(n, _) =>
        if path !in disk.files {
          return false, [];
        }
        return true, disk.files[path][..n];
    }

    /** close: final for appends at once; done when the file is gone, which may
        take more than one call. */
    method Close(fdFails: bool, unlinkFails: bool) returns (ok: bool)
      requires Valid()
      modifies this, disk
      ensures Valid() && closed && accepted == old(accepted) && spools == old(spools) && OnlyMyFile()
      ensures ok <==> old(removed) || (!unlinkFails && !(old(open) && fdFails))
      ensures removed <==> old(removed) || !unlinkFails
      ensures removed ==> path !in disk.files
      ensures old(removed) ==> disk.files == old(disk.files)
    {
      hide Valid;
      MarkClosed();
      ok := true;
      if !removed {
        DropBuffer();
        ok := !unlinkFails && !(open && fdFails);
        DropFile(fdFails, unlinkFails);
      }
      NoFileLeft();
    }

    method MarkClosed()
      requires Valid()
      modifies this`closed
      ensures Valid() && closed
    {
      hide Intact;
      closed := true;
      StaysValid();
    }

    method DropBuffer()
      requires Valid() && closed
      modifies this`data, this`len, this`arrays
      ensures Valid() && fresh(arrays - old(arrays))
    {
      hide Intact;
      var empty := new Byte[0];
      data, len := empty, 0;
      arrays := arrays + {empty};
      StaysValid();
    }

    /** The descriptor may fail to close, the unlink may fail; each on its own. */
    method DropFile(fdFails: bool, unlinkFails: bool)
      requires Valid() && closed && !removed
      modifies this`open, this`removed, disk
      ensures Valid() && OnlyMyFile() && removed == !unlinkFails
    {
      hide Intact;
      if !fdFails { open := false; }
      if !unlinkFails {
        disk.files := disk.files - {path};
        removed := true;
      }
      StaysValid();
    }

    lemma {:induction false} NoFileLeft()
      requires Valid()
      ensures removed ==> path !in disk.files
    {
    }
  }

  lemma {:induction false} NothingYet(was: seq<Byte>, chunks: seq<seq<Byte>>)
    ensures was == was + Flatten(chunks[..0]) && was <= was + Flatten(chunks)
  {
  }

  lemma {:induction false} FlattenNext(was: seq<Byte>, chunks: seq<seq<Byte>>, k: nat, n: nat)
    requires k < |chunks| && n <= |chunks[k]|
    ensures
      var now := was + Flatten(chunks[..k]) + chunks[k][..n];
      && was <= now <= was + Flatten(chunks)
      && (n == |chunks[k]| ==> now == was + Flatten(chunks[..k + 1]))
  {
    assert chunks[..k + 1][..k] == chunks[..k];
    FlattenPrefix(chunks, k + 1);
    var head, more := Flatten(chunks[..k]), chunks[k][..n];
    assert Flatten(chunks[..k + 1]) == head + chunks[k];
    hide Flatten;
    assert head + more <= head + chunks[k] <= Flatten(chunks);
    assert was + head + more == was + (head + more);
    assert n == |chunks[k]| ==> more == chunks[k];
  }

  lemma {:induction false} FlattenPrefix(chunks: seq<seq<Byte>>, k: nat)
    requires k <= |chunks|
    ensures Flatten(chunks[..k]) <= Flatten(chunks)
  {
    var last := |chunks| - 1;
    if k <= last {
      FlattenPrefix(chunks[..last], k);
      assert chunks[..last][..k] == chunks[..k];
    } else {
      assert chunks[..k] == chunks;
    }
  }

  method Fill(dst: array<Byte>, at: nat, p: seq<Byte>)
    requires at + |p| <= dst.Length
    modifies dst
    ensures dst[..at] == old(dst[..at]) && dst[at..at + |p|] == p
    ensures forall k :: at + |p| <= k < dst.Length ==> dst[k] == old(dst[k])
  {
    for k := 0 to |p|
      invariant forall j :: 0 <= j < dst.Length && !(at <= j < at + k) ==> dst[j] == old(dst[j])
      invariant forall j :: 0 <= j < k ==> dst[at + j] == p[j]
    {
      dst[at + k] := p[k];
    }
  }
}
