/**
 The storage manager, and the order of calls in the server's `main` for one process.
 */
module StorageManager {
  import opened Metrics
  import opened MemStorage
  import Durability

  type Config = Durability.Config

  class StorageManager {
    const storage: MemStorage
    const file: File
    const config: Config

    var stopped: bool
    var cancelled: bool
    /** The number of periodic savers running, the wait group's counter. */
    var savers: nat

    /** After `Stop` no saver is running. */
    predicate Valid()
      reads this
    {
      stopped ==> cancelled && savers == 0
    }

    constructor (storage: MemStorage, file: File, config: Config)
      ensures this.storage == storage && this.file == file && this.config == config
      ensures Valid() && !stopped && !cancelled && savers == 0
    {
      this.storage, this.file, this.config := storage, file, config;
      stopped, cancelled, savers := false, false, 0;
    }

    /** Loads once more and starts a periodic saver, one more with every call; does nothing
        after `Stop`. */
    method Start()
      requires Valid()
      modifies this, storage
      ensures Valid() && stopped == old(stopped) && cancelled == old(cancelled)
      ensures savers == old(savers) + if !stopped && config.periodic then 1 else 0
      ensures storage.Contents() == if !stopped then Durability.Loaded(config, file.content, old(storage.Contents()))
                                    else old(storage.Contents())
    {
      if stopped {
        return;
      }
      if config.restore && config.hasPath {
        var failed := storage.LoadFromFile(file);
      }
      if config.periodic {
        savers := savers + 1;
      }
    }

    /** A saver's ticker case. An empty path cannot be created. */
    method PeriodicSave(createFails: bool)
      requires savers > 0
      modifies file
      ensures file.content == Durability.Saved(config, old(file.content), storage.Contents(), createFails)
    {
      var failed := storage.SaveToFile(file, createFails || !config.hasPath);
    }

    /** Cancels the savers and waits for them. Until the last one's `select` picks the cancelled
        context the tickers may be picked again, once for every element of `lateTicks`. */
    method Stop(lateTicks: seq<bool>)
      requires Valid()
      modifies this, file
      ensures Valid() && stopped && savers == 0
      ensures file.content == old(file.content) || (config.hasPath && file.content == Encoded(storage.Contents()))
      ensures old(stopped) ==> file.content == old(file.content)
    {
      if stopped {
        return;
      }
      stopped := true;
      cancelled := true;
      if savers > 0 {
        for i := 0 to |lateTicks|
          invariant stopped && cancelled && savers > 0
          invariant file.content == old(file.content) || (config.hasPath && file.content == Encoded(storage.Contents()))
        {
          PeriodicSave(lateTicks[i]);
        }
        savers := 0;
      }
    }

    /** The final save. */
    method Shutdown(createFails: bool) returns (failed: bool)
      modifies file
      ensures file.content == Durability.Saved(config, old(file.content), storage.Contents(), createFails)
      ensures failed <==> config.hasPath && (createFails || !AllFinite(storage.Contents()))
    {
      if config.hasPath {
        failed := storage.SaveToFile(file, createFails);
      } else {
        failed := false;
      }
    }
  }

  /** What happens while the server runs: an update comes in, or the saver's ticker fires. */
  datatype Event = Write(m: Metric) | Tick(createFails: bool)

  function Writes(events: seq<Event>): seq<Metric> {
    if events == [] then []
    else
      var e := events[|events| - 1];
      Writes(events[..|events| - 1]) + if e.Write? then [e.m] else []
  }

  /** `main` from start to graceful end, with final saves that find their file: the file ends
      up holding what it held plus the updates, whatever was saved in between, and no saver is
      left running. */
  method Lifetime(file: File, config: Config, events: seq<Event>, lateTicks: seq<bool>)
    returns (manager: StorageManager)
    requires AllWellFormed(Writes(events))
    modifies file
    ensures
      var start := Durability.Loaded(config, old(file.content), EMPTY);
      && file.content == Durability.Saved(config, old(file.content), Replay(start, Writes(events)), false)
      && manager.storage.Contents() == Replay(start, Writes(events))
    ensures manager.file == file && manager.stopped && manager.savers == 0
  {
    var storage := new MemStorage();
    if config.restore && config.hasPath {
      var failed := storage.LoadFromFile(file);
    }
    manager := new StorageManager(storage, file, config);
    manager.Start();
    ghost var start := storage.Contents();
    assert start == Durability.Loaded(config, old(file.content), EMPTY);
    for i := 0 to |events|
      invariant manager.Valid() && !manager.stopped && (config.periodic <==> manager.savers > 0)
      invariant storage.Contents() == Replay(start, Writes(events[..i]))
      invariant !config.hasPath ==> file.content == old(file.content)
    {
      assert events[..i + 1][..i] == events[..i];
      assert Writes(events[..i]) + [] == Writes(events[..i]);
      WritesWellFormed(events, i);
      match events[i]
      case Write(m) =>
        ReplaySnoc(start, Writes(events[..i]), m);
        if IsGauge(m) {
          storage.UpdateGauge(m.id, m.value.value);
        } else {
          storage.UpdateCounter(m.id, m.delta.value);
        }
      case Tick(createFails) =>
        if manager.savers > 0 {
          manager.PeriodicSave(createFails);
        }
    }
    assert events[..|events|] == events;
    manager.Stop(lateTicks);
    var failed := manager.Shutdown(false);
  }

  lemma {:induction false} WritesWellFormed(events: seq<Event>, i: nat)
    requires AllWellFormed(Writes(events)) && i < |events|
    ensures events[i].Write? ==> WellFormed(events[i].m)
  {
    var n := |events| - 1;
    var before := Writes(events[..n]);
    if i < n {
      assert forall j :: 0 <= j < |before| ==> before[j] == Writes(events)[j];
      WritesWellFormed(events[..n], i);
    } else if events[i].Write? {
      assert Writes(events)[|before|] == events[i].m;
    }
  }
}
