/** The storage calls of a backup or restore, made one by one. */
module SaveService {
  import opened GuestMemory
  import opened SaveStorage
  import opened SaveBackup
  import opened SaveCommit

  class SaveDisk {
    const world: World
    var disk: Disk

    constructor (w: World, nodes: Nodes)
      ensures world == w && disk == Disk(nodes, [])
    {
      world, disk := w, Disk(nodes, []);
    }

    /** A call that changes nothing: opening for reading, reading, listing, flushing, asking for the status. */
    method Query() returns (ok: bool)
      modifies this`disk
      ensures disk == Look(old(disk)) && ok == !Fails(world, old(disk))
    {
      ok := !Fails(world, disk);
      disk := Look(disk);
    }

    method MakeFolder(p: Path) returns (ok: bool)
      modifies this`disk
      ensures (disk, ok) == Mkdir(world, old(disk), p)
    {
      ok := !Fails(world, disk) && (p in disk.nodes || IsFolder(disk.nodes, Parent(p)));
      disk := if ok && p !in disk.nodes then Next(disk, disk.nodes[p := Folder]) else Look(disk);
    }

    method OpenForWriting(p: Path) returns (ok: bool)
      modifies this`disk
      ensures (disk, ok) == Create(world, old(disk), p)
    {
      ok := !Fails(world, disk) && IsFolder(disk.nodes, Parent(p)) && (p in disk.nodes ==> disk.nodes[p].File?);
      disk := if ok then Next(disk, disk.nodes[p := File([])]) else Look(disk);
    }

    method Write(p: Path, data: seq<Byte>) returns (ok: bool)
      requires IsFile(disk.nodes, p)
      modifies this`disk
      ensures (disk, ok) == Append(world, old(disk), p, data)
    {
      ok := !Fails(world, disk);
      var stored := if ok then data else Shortened(data, world.short(|disk.steps|));
      disk := Next(disk, disk.nodes[p := File(disk.nodes[p].content + stored)]);
    }

    method Remove(p: Path)
      modifies this`disk
      ensures disk == CleanUp(world, old(disk), p)
    {
      var refused := Fails(world, disk);
      disk := Next(disk, Remains(disk.nodes, world.keeps(|disk.steps|), p));
      if !refused {
        disk := Next(disk, Remains(disk.nodes, {}, p));
      }
    }

    method Move(a: Path, b: Path) returns (ok: bool)
      modifies this`disk
      ensures (disk, ok) == Rename(world, old(disk), a, b)
    {
      ok := !Fails(world, disk) && a in disk.nodes && b !in disk.nodes && Apart(a, b) &&
            IsFolder(disk.nodes, Parent(b));
      disk := if ok then Next(disk, Moved(disk.nodes, a, b)) else Look(disk);
    }

    /** Copies chunks until a read returns nothing. */
    method CopyContent(from: Path, to: Path, total: nat) returns (ok: bool, sum: nat)
      requires from != to && IsFile(disk.nodes, from) && IsFile(disk.nodes, to)
      modifies this`disk
      ensures Copied(disk, ok, sum) == CopyData(world, old(disk), from, to, 0, total)
    {
      hide Append;
      ghost var goal := CopyData(world, disk, from, to, 0, total);
      var done: nat := 0;
      sum := total;
      while true
        invariant IsFile(disk.nodes, from) && IsFile(disk.nodes, to) && done <= |disk.nodes[from].content|
        invariant CopyData(world, disk, from, to, done, sum) == goal
        decreases |disk.nodes[from].content| - done
      {
        var content := disk.nodes[from].content;
        var size := if |content| - done < CHUNK then |content| - done else CHUNK;
        var read := Query();
        if !read || sum > MAX_TOTAL || size > MAX_TOTAL - sum {
          return false, sum;
        }
        if size == 0 {
          ok := Query();
          return;
        }
        AppendKeeps(world, disk, to, content[done..done + size], from);
        ok := Write(to, content[done..done + size]);
        if !ok {
          return;
        }
        done := done + size;
        sum := sum + size;
      }
    }

    method CopyOne(from: Path, to: Path, total: nat) returns (ok: bool, sum: nat)
      requires from != to
      modifies this`disk
      ensures Copied(disk, ok, sum) == CopyFile(world, old(disk), from, to, total)
    {
      hide Create, CopyData;
      sum := total;
      var present := IsFile(disk.nodes, from);
      ok := Query();
      if !ok || !present {
        return false, sum;
      }
      CreateKeeps(world, disk, to, from);
      ok := OpenForWriting(to);
      if !ok {
        return;
      }
      ok, sum := CopyContent(from, to, total);
    }

    /** Copies a folder, entry by entry; it terminates by its depth. */
    method CopyDirectory(source: Path, target: Path, depth: nat, total: nat) returns (ok: bool, sum: nat)
      requires Apart(source, target)
      modifies this`disk
      ensures Copied(disk, ok, sum) == CopyTree(world, old(disk), source, target, depth, total)
      decreases if depth > MAX_DEPTH then 0 else MAX_DEPTH + 1 - depth
    {
      hide Mkdir, CopyFile, Apart;
      sum := total;
      if depth > MAX_DEPTH {
        return false, sum;
      }
      ok := MakeFolder(target);
      if !ok {
        return;
      }
      var present := IsFolder(disk.nodes, source);
      ok := Query();
      if !ok || !present {
        return false, sum;
      }
      var listed := world.list(source);
      ghost var goal := CopyEntries(world, disk, source, target, 0, depth, total);
      for i := 0 to |listed|
        invariant CopyEntries(world, disk, source, target, i, depth, sum) == goal
      {
        ok := Query();
        if !ok {
          return;
        }
        var l := listed[i];
        ChildrenApart(source, target, l.name, l.name);
        if !NameValid(source, target, l.name) {
          return false, sum;
        }
        if l.kind == FolderKind {
          ok, sum := CopyDirectory(source + [l.name], target + [l.name], depth + 1, sum);
        } else if l.kind == FileKind {
          ok, sum := CopyOne(source + [l.name], target + [l.name], sum);
        } else {
          ok := false;
        }
        if !ok {
          return;
        }
      }
      ok := Query();
    }

    /** The whole operation: cleanup, copy, and the renames with the one back. */
    method SaveDirectory(x: Names) returns (ok: bool, aside: bool, back: bool)
      requires AllApart(x)
      modifies this`disk
      ensures Outcome(disk, ok, aside, back) == Operate(world, old(disk), x)
    {
      hide CopyTree, Rename, CleanUp, Apart;
      aside, back := false, false;
      Remove(x.temporary);
      var total;
      ok, total := CopyDirectory(x.source, x.temporary, 0, 0);
      if !ok {
        Remove(x.temporary);
        return;
      }
      var had := x.destination in disk.nodes;
      var known := Query();
      had := had && known;
      Remove(x.previous);
      if had {
        ok := Move(x.destination, x.previous);
        aside := ok;
      }
      if ok {
        ok := Move(x.temporary, x.destination);
      }
      if !ok && had {
        back := Move(x.previous, x.destination);
      } else if ok {
        Remove(x.previous);
      }
      if !ok {
        Remove(x.temporary);
      }
    }
  }
}
