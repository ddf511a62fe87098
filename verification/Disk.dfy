/** A directory of the account store: atomic file replacement when any step may fail or be the last one that runs. */
module Disk {

  /**
   * File names by their role: the hexadecimal name of a login, the manifest, a temporary file, and the rest, of which
   * `json` tells whether the name looks like a snapshot file without being one.
   */
  datatype Name = AccountName(login: string) | ManifestName | TempName(id: nat) | OtherName(name: string, json: bool)

  type Dir = map<Name, string>

  /** How a file-system step goes: done, refused, or the process ends there; a write may have stored only a part. */
  datatype Event = Fine | Fail(partial: string) | Crash(partial: string)

  type Script = nat -> Event

  /** The files that count: everything but temporary files. */
  function Stable(files: Dir): Dir {
    map n | n in files && !n.TempName? :: files[n]
  }

  class Directory {
    var files: Dir
    var clock: nat
    var alive: bool
    const script: Script

    constructor (files: Dir, clock: nat, script: Script)
      requires forall n | n in files && n.TempName? :: n.id < clock
      ensures this.files == files && this.script == script && alive && Valid()
    {
      this.files, this.clock, this.script, alive := files, clock, script, true;
    }

    /** Names of temporary files are never used again. */
    predicate Valid()
      reads this
    {
      forall n | n in files && n.TempName? :: n.id < clock
    }

    /** No step ever fails. */
    ghost predicate Reliable()
      reads this
    {
      alive && forall k :: script(k).Fine?
    }

    /** The outcome of the next step; once the process has ended, nothing happens any more. */
    method Tick() returns (event: Event)
      requires Valid()
      modifies this
      ensures Valid() && files == old(files)
      ensures !old(alive) ==> event.Fail? && !alive
      ensures event.Fine? ==> alive
      ensures old(alive) && !alive ==> event.Crash?
      ensures clock == old(clock) + 1
      ensures old(Reliable()) ==> event.Fine? && Reliable()
    {
      event := script(clock);
      clock := clock + 1;
      if !alive {
        event := Fail("");
      } else if event.Crash? {
        alive := false;
      }
    }

    method CreateTemp() returns (temp: Name, ok: bool)
      requires Valid()
      modifies this
      ensures Valid() && temp.TempName? && temp !in old(files)
      ensures ok ==> files == old(files)[temp := ""] && alive
      ensures !ok ==> files == old(files)
      ensures !old(alive) ==> !ok && !alive
      ensures old(Reliable()) ==> ok && Reliable()
    {
      var event := Tick();
      temp := TempName(clock);
      ok := event.Fine?;
      if ok {
        files := files[temp := ""];
        clock := clock + 1;
      }
    }

    /** On failure any part of the content may have been written. */
    method WriteTemp(temp: Name, content: string) returns (ok: bool)
      requires Valid() && temp.TempName? && temp in files
      modifies this
      ensures Valid() && temp in files && files - {temp} == old(files) - {temp}
      ensures ok ==> files[temp] == content && alive
      ensures !old(alive) ==> !ok && !alive
      ensures old(Reliable()) ==> ok && Reliable()
    {
      var before := alive;
      var event := Tick();
      ok := event.Fine?;
      if ok {
        files := files[temp := content];
      } else if before {
        files := files[temp := event.partial];
      }
    }

    method Sync() returns (ok: bool)
      requires Valid()
      modifies this
      ensures Valid() && files == old(files)
      ensures ok ==> alive
      ensures !old(alive) ==> !ok && !alive
      ensures old(Reliable()) ==> ok && Reliable()
    {
      var event := Tick();
      ok := event.Fine?;
    }

    /** Atomic: the name gets the content, or nothing changes. */
    method Rename(temp: Name, name: Name) returns (ok: bool)
      requires Valid() && temp.TempName? && temp in files && !name.TempName?
      modifies this
      ensures Valid()
      ensures ok ==> files == (old(files) - {temp})[name := old(files[temp])] && alive
      ensures !ok ==> files == old(files)
      ensures !old(alive) ==> !ok && !alive
      ensures old(Reliable()) ==> ok && Reliable()
    {
      var event := Tick();
      ok := event.Fine?;
      if ok {
        files := (files - {temp})[name := files[temp]];
      }
    }

    /** A file that is not there counts as removed. */
    method Remove(name: Name) returns (ok: bool)
      requires Valid()
      modifies this
      ensures Valid()
      ensures ok ==> files == old(files) - {name} && alive
      ensures !ok ==> files == old(files)
      ensures !old(alive) ==> !ok && !alive
      ensures old(Reliable()) ==> ok && Reliable()
    {
      var event := Tick();
      ok := event.Fine?;
      if ok {
        files := files - {name};
      }
    }

    /** Temporary file, write, sync, rename; what is left of the temporary file is removed, if that is still possible. */
    method WriteAtomically(name: Name, content: string) returns (ok: bool)
      requires Valid() && !name.TempName?
      modifies this
      ensures Valid()
      ensures Stable(files) == if ok then Stable(old(files))[name := content] else Stable(old(files))
      ensures old(Reliable()) ==> files == old(files)[name := content]
      ensures !old(alive) ==> !ok && !alive
      ensures old(Reliable()) ==> ok && Reliable()
    {
      hide Stable;
      ghost var before := files;
      var temp;
      temp, ok := CreateTemp();
      if !ok {
        return;
      }
      ok := WriteTemp(temp, content);
      assert files - {temp} == before;
      if ok {
        ok := Sync();
      }
      if ok {
        ok := Rename(temp, name);
      }
      assert files == if ok then before[name := content] else files;
      var cleaned := Remove(temp);
      StableWith(before, name, content);
      if ok {
        assert files == before[name := content];
      } else {
        SameButTemp(files, before, temp);
      }
    }
  }

  lemma SameButTemp(files: Dir, before: Dir, temp: Name)
    requires temp.TempName? && temp !in before && files - {temp} == before
    ensures Stable(files) == Stable(before)
  {
    forall n | n in files && n != temp ensures n in before && before[n] == files[n] {
      assert n in files - {temp};
    }
    forall n | n in before ensures n in files && files[n] == before[n] {
      assert n in files - {temp};
    }
  }

  lemma StableWith(files: Dir, name: Name, content: string)
    requires !name.TempName?
    ensures Stable(files[name := content]) == Stable(files)[name := content]
  {
  }
}
