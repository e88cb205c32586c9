/** Writing a file so that its name never refers to a part of it: write aside in short pieces, then rename. */
module AtomicFile {
  import opened Bytes
  import opened Text

  /**
    What the system answers: whether the directory of an absolute path opens and is the user's own and private, whether
    each call works, and how many bytes the k-th write takes. A write that works takes
    at least one byte and no more than it was offered.
  */
  datatype Answers = Answers(
    trusted: bool, open: bool, write: nat -> bool, taken: nat -> nat, chmod: bool, sync: bool, close: bool,
    rename: bool, syncDirectory: bool, unlink: bool)

  type Entries = map<string, Data>

  function Taken(a: Answers, k: nat, left: nat): (n: nat)
    requires left > 0
    ensures 1 <= n <= left
  {
    if a.taken(k) < 1 then 1 else if a.taken(k) > left then left else a.taken(k)
  }

  /** The writes that are needed for `left` more bytes, from the k-th on, all work. */
  predicate WritesWork(a: Answers, k: nat, left: nat)
    decreases left
  {
    left == 0 || (a.write(k) && WritesWork(a, k + 1, left - Taken(a, k, left)))
  }

  /** Every call up to and including the rename works. */
  predicate ReachesRename(a: Answers, size: nat) {
    a.trusted && a.open && WritesWork(a, 0, size) && a.chmod && a.sync && a.close && a.rename
  }

  predicate SameAt(m: Entries, n: Entries, name: string) {
    (name in m <==> name in n) && (name in m ==> m[name] == n[name])
  }

  /** Two listings with the same files, apart from these names. */
  ghost predicate AgreeOff(m: Entries, n: Entries, names: set<string>) {
    forall name :: name !in names ==> SameAt(m, n, name)
  }

  /** The name is as it was or complete, and no name but it and the temporary one is touched. */
  ghost predicate Atomic(now: Entries, before: Entries, name: string, temporary: string, data: Data) {
    && (name in now ==> now[name] == data || (name in before && now[name] == before[name]))
    && (name in before ==> name in now)
    && AgreeOff(now, before, {name, temporary})
  }

  class Directory {
    var entries: Entries
    ghost var trail: seq<Entries>

    constructor (entries: Entries)
      ensures this.entries == entries && trail == []
    {
      this.entries, trail := entries, [];
    }

    ghost predicate AtomicSince(from: nat, before: Entries, name: string, temporary: string, data: Data)
      reads this
    {
      forall k :: from <= k < |trail| ==> Atomic(trail[k], before, name, temporary, data)
    }

    method Set(entries: Entries)
      modifies this
      ensures this.entries == entries && trail == old(trail) + [entries]
    {
      this.entries := entries;
      trail := trail + [entries];
    }

    /** The loop of short writes: it ends with the whole data in the file unless a write fails. */
    method WriteAll(name: string, temporary: string, data: Data, a: Answers, ghost before: Entries) returns (ok: bool)
      requires name != temporary && Atomic(entries, before, name, temporary, data)
      requires temporary in entries && entries[temporary] == []
      modifies this
      ensures AgreeOff(entries, old(entries), {temporary}) && temporary in entries
      ensures entries[temporary] <= data && (ok <==> entries[temporary] == data)
      ensures ok <==> WritesWork(a, 0, |data|)
      ensures Atomic(entries, before, name, temporary, data)
      ensures old(trail) <= trail && AtomicSince(|old(trail)|, before, name, temporary, data)
    {
      var written, k := 0, 0;
      while written < |data|
        invariant 0 <= written <= |data|
        invariant temporary in entries && entries[temporary] == data[..written]
        invariant WritesWork(a, 0, |data|) <==> WritesWork(a, k, |data| - written)
        invariant AgreeOff(entries, old(entries), {temporary})
        invariant Atomic(entries, before, name, temporary, data)
        invariant old(trail) <= trail && AtomicSince(|old(trail)|, before, name, temporary, data)
      {
        if !a.write(k) {
          return false;
        }
        var n := Taken(a, k, |data| - written);
        assert data[..written] + data[written..written + n] == data[..written + n];
        Set(entries[temporary := data[..written + n]]);
        written, k := written + n, k + 1;
      }
      WholePrefix(data);
      ok := true;
    }

    /** From the creation of the temporary file to the rename. */
    method WriteAndRename(name: string, temporary: string, data: Data, a: Answers) returns (renamed: bool)
      requires name != temporary && temporary !in entries
      modifies this
      ensures old(trail) <= trail && AtomicSince(|old(trail)|, old(entries), name, temporary, data)
      ensures AgreeOff(entries, if renamed then old(entries)[name := data] else old(entries), {temporary})
      ensures Atomic(entries, old(entries), name, temporary, data) && (renamed ==> temporary !in entries)
      ensures renamed <==> WritesWork(a, 0, |data|) && a.chmod && a.sync && a.close && a.rename
    {
      hide WritesWork;
      Set(entries[temporary := []]);
      var written := WriteAll(name, temporary, data, a, old(entries));
      renamed := written && a.chmod && a.sync && a.close && a.rename;
      if renamed {
        Set((entries - {temporary})[name := data]);
      }
    }

    /**
      The target is renamed into place exactly when everything up to the rename works; a failure reported after that
      still leaves the new content. The temporary name is left behind only if removing it fails too.
    */
    method AtomicWrite(name: string, temporary: string, data: Data, maximum: nat, a: Answers)
      returns (ok: bool, renamed: bool)
      requires name != temporary
      modifies this
      ensures old(trail) <= trail && AtomicSince(|old(trail)|, old(entries), name, temporary, data)
      ensures AgreeOff(entries, if renamed then old(entries)[name := data] else old(entries), {temporary})
      ensures ok <==> renamed && a.syncDirectory
      ensures renamed <==> 0 < |data| <= maximum && temporary !in old(entries) && ReachesRename(a, |data|)
      ensures temporary in entries ==> !ok && !renamed && (a.unlink ==> entries == old(entries))
      ensures !(a.trusted && 0 < |data| <= maximum) ==> entries == old(entries) && trail == old(trail)
    {
      hide WritesWork;
      ok, renamed := false, false;
      if data == [] || |data| > maximum || !a.trusted {
        return;
      }
      if a.open && temporary !in entries {
        renamed := WriteAndRename(name, temporary, data, a);
        ok := renamed && a.syncDirectory;
      }
      if a.unlink {
        Set(entries - {temporary});
      }
      assert Atomic(entries, old(entries), name, temporary, data);
    }
  }
}
