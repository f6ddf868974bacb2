/** The builder's object cache as it is: fields updated in place, a purge loop that deletes while
    iterating, and completions that arrive later. */
module ObjectCache {
  import opened Collections
  import opened ObjectIndex
  import S = CacheStore

  class Cache {
    const config: S.Config
    var cache: JsMap<string, S.Item>
    var pending: map<string, nat>
    var size: int
    /** Everything emitted so far. */
    var emitted: seq<S.Change>

    ghost function State(): S.State
      reads this
    {
      S.State(cache, pending, size)
    }

    ghost predicate Valid()
      reads this
    {
      cache.Wf()
    }

    /** `files` are the directory's files, oldest access first; nobody listens yet. */
    constructor (maxSize: nat, purgeSize: nat, files: seq<(string, S.DiskFile)>)
      ensures Valid() && config == S.Config(maxSize, purgeSize) && emitted == []
      ensures State() == Loaded(S.Config(maxSize, purgeSize), files)
    {
      config := S.Config(maxSize, purgeSize);
      cache, pending, size, emitted := JsMap([], map[]), map[], 0, [];
      new;
      for i := 0 to |files|
        invariant Valid() && State() == Loaded(config, files[..i])
      {
        assert files[..i + 1][..i] == files[..i];
        LoadFile(files[i].0, files[i].1, files[i].1.statSize);
      }
      assert files[..|files|] == files;
      emitted := [];
    }

    method LoadFile(name: string, file: S.DiskFile, fileSize: nat)
      requires Valid()
      modifies this
      ensures Valid() && State() == S.Step(config, old(State()), S.LoadEvent(name, file, fileSize))
      ensures emitted == old(emitted) + S.Changes(config, old(State()), S.LoadEvent(name, file, fileSize))
    {
      S.StepDrift(config, State(), S.LoadEvent(name, file, fileSize));
      if name in cache.vals {
        return;
      }
      if |name| == 40 {
        if file.headerSize < 10 || file.headerSize > 1024 * 16 {
          return;
        }
        if file.sha1 != name {
          return;
        }
        var item := S.Item(file.headerSize, file.bytes);
        if S.FileSize(item) != fileSize {
          return;
        }
        Store(name, item, file.statSize);
      }
    }

    /** Count, store, announce, and purge when over the limit. */
    method Store(sha1: string, item: S.Item, reported: nat)
      requires Valid()
      modifies this`cache, this`size, this`emitted
      ensures Valid() && State() == S.Insert(config, old(State()), sha1, item)
      ensures emitted == old(emitted) + S.InsertChanges(config, old(State()), sha1, item, reported)
    {
      ghost var before, was := State(), emitted;
      PutItem(sha1, item);
      emitted := emitted + [S.Added(ChangeMessage(sha1, reported, size))];
      StoreChanges(config, before, was, sha1, item, reported);
      if size > config.maxSize {
        Purge(config.purgeSize);
      }
    }

    method PutItem(sha1: string, item: S.Item)
      requires Valid()
      modifies this`cache, this`size
      ensures Valid() && State() == S.Put(old(State()), sha1, item)
    {
      cache.SetWf(sha1, item);
      size := size + S.FileSize(item);
      cache := cache.Set(sha1, item);
    }

    method Add(sha1: string, writer: nat) returns (ok: bool)
      requires Valid()
      modifies this`pending
      ensures Valid() && State() == S.Step(config, old(State()), S.AddEvent(sha1, writer))
      ensures !ok <==> sha1 != "" && sha1 !in old(pending) && sha1 in cache.vals
    {
      if sha1 == "" {
        return true;
      }
      if sha1 in pending {
        return true;
      }
      if sha1 in cache.vals {
        return false;
      }
      pending := pending[sha1 := writer];
      return true;
    }

    /** The pending write of `writer` has reached the disk; `stat` is the file's size if it can be read. */
    method Written(sha1: string, writer: nat, item: S.Item, stat: Option<nat>)
      requires Valid()
      modifies this
      ensures Valid() && State() == S.Step(config, old(State()), S.WrittenEvent(sha1, writer, item, stat))
      ensures emitted == old(emitted) + S.Changes(config, old(State()), S.WrittenEvent(sha1, writer, item, stat))
    {
      if sha1 in pending && pending[sha1] == writer {
        if stat == Some(S.FileSize(item)) {
          Store(sha1, item, S.FileSize(item));
        }
        pending := pending - {sha1};
      }
    }

    method WriteError(sha1: string)
      modifies this`pending
      ensures State() == S.Step(config, old(State()), S.WriteErrorEvent(sha1))
    {
      pending := pending - {sha1};
    }

    method Remove(sha1: string)
      requires Valid()
      modifies this`cache, this`size, this`emitted
      ensures Valid() && State() == S.RemoveKey(old(State()), sha1)
      ensures emitted == old(emitted) + S.RemoveChanges(old(State()), sha1)
    {
      cache.DeleteWf(sha1);
      if sha1 in cache.vals {
        var info := cache.vals[sha1];
        size := size - S.FileSize(info);
        cache := cache.Delete(sha1);
        emitted := emitted + [S.Removed(ChangeMessage(sha1, S.FileSize(info), size))];
      }
    }

    method Purge(target: int)
      requires Valid()
      modifies this`cache, this`size, this`emitted
      ensures Valid() && State() == S.Purge(old(State()), target)
      ensures emitted == old(emitted) + S.PurgeChanges(old(State()), target)
    {
      ghost var was := State();
      var keys := cache.order;
      S.DroppedWf(was, 0);
      assert cache.order[0..] == cache.order && cache.vals - Members(cache.order[..0]) == cache.vals;
      var i := 0;
      while i < |keys|
        invariant i <= |keys| && Valid() && State() == S.Dropped(was, i)
        invariant emitted == old(emitted) + S.DroppedChanges(was, i)
        invariant S.Excess(was, target, 0) == S.Excess(was, target, i)
      {
        if size <= target {
          break;
        }
        DropNext(was, old(emitted), i);
        Remove(keys[i]);
        i := i + 1;
      }
    }

    method Clear()
      requires Valid()
      modifies this`cache, this`size, this`emitted
      ensures Valid() && State() == S.Purge(old(State()), 0)
      ensures emitted == old(emitted) + S.PurgeChanges(old(State()), 0)
    {
      Purge(0);
    }

    method Get(sha1: string, dontTouch: bool) returns (item: Option<S.Item>)
      requires Valid()
      modifies this`cache
      ensures Valid() && State() == S.Step(config, old(State()), S.GetEvent(sha1, dontTouch))
      ensures item == if sha1 in old(cache).vals then Some(old(cache).vals[sha1]) else None
    {
      S.StepDrift(config, State(), S.GetEvent(sha1, dontTouch));
      item := if sha1 in cache.vals then Some(cache.vals[sha1]) else None;
      if !dontTouch && item.Some? {
        cache := cache.Delete(sha1);
        cache := cache.Set(sha1, item.value);
      }
    }

    method SyncData() returns (ret: seq<SyncItem>)
      requires Valid()
      ensures ret == S.SyncItems(cache)
    {
      ret := [];
      for i := 0 to |cache.order|
        invariant ret == S.SyncItemsOf(cache, cache.order[..i])
      {
        assert cache.order[..i + 1][..i] == cache.order[..i];
        ret := ret + [SyncItem(cache.order[i], S.FileSize(cache.vals[cache.order[i]]))];
      }
      assert cache.order[..|cache.order|] == cache.order;
    }
  }

  /** The directory loaded file by file into an empty cache. */
  ghost function Loaded(cfg: S.Config, files: seq<(string, S.DiskFile)>): S.State {
    if files == [] then S.INITIAL
    else
      var last := files[|files| - 1];
      S.Step(cfg, Loaded(cfg, files[..|files| - 1]), S.LoadEvent(last.0, last.1, last.1.statSize))
  }

  /** One more of the least recent entries goes. */
  lemma DropNext(s: S.State, was: seq<S.Change>, i: nat)
    requires s.cache.Wf() && i < |s.cache.order| && S.Dropped(s, i).cache.Wf()
    ensures S.RemoveKey(S.Dropped(s, i), s.cache.order[i]) == S.Dropped(s, i + 1)
    ensures was + S.DroppedChanges(s, i) + S.RemoveChanges(S.Dropped(s, i), s.cache.order[i]) ==
            was + S.DroppedChanges(s, i + 1)
  {
    S.DropOne(s, i);
    AppendAssoc(was, S.DroppedChanges(s, i), S.RemoveChanges(S.Dropped(s, i), s.cache.order[i]));
  }

  /** What storing an item announces, behind what has been announced before. */
  lemma StoreChanges(cfg: S.Config, s: S.State, was: seq<S.Change>, sha1: string, item: S.Item, reported: nat)
    ensures var full := S.Put(s, sha1, item);
            var told := was + [S.Added(ChangeMessage(sha1, reported, full.size))];
            was + S.InsertChanges(cfg, s, sha1, item, reported) ==
            if full.size > cfg.maxSize then told + S.PurgeChanges(full, cfg.purgeSize) else told
  {
    var full := S.Put(s, sha1, item);
    var added := [S.Added(ChangeMessage(sha1, reported, full.size))];
    AppendAssoc(was, added, S.PurgeChanges(full, cfg.purgeSize));
    AppendAssoc(added, [], []);
  }
}
