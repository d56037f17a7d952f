/**
 * The browser-side progress store: one object per training, kept under a
 * single storage key, read whole and written back with a shallow merge.
 */
module ProgressStore {
  import opened Wrappers

  /** The JSON values an entry holds. */
  datatype Json = JNull | JBool(b: bool) | JNum(n: int) | JStr(s: string) | JArr(items: seq<Json>)
    | JObj(fields: map<string, Json>)

  /** The saved progress of one training: a JSON object. */
  type Entry = map<string, Json>

  /** The whole store, by training id (an object key, hence a string). */
  type Db = map<string, Entry>

  /** `{ ...(db[id] || {}), ...partial }` stored under `id`. */
  function Saved(db: Db, id: string, partial: Entry): (r: Db)
    ensures r.Keys == db.Keys + {id}
  {
    db[id := (if id in db then db[id] else map[]) + partial]
  }

  /**
   * After a save, the keys of the partial entry carry its values, the other
   * keys of the old entry keep theirs, and every other training is untouched.
   */
  lemma SavedMeaning(db: Db, id: string, partial: Entry)
    ensures var r := Saved(db, id, partial);
      (forall k :: k in partial ==> k in r[id] && r[id][k] == partial[k])
      && (forall k :: id in db && k in db[id] && k !in partial ==> k in r[id] && r[id][k] == db[id][k])
      && (forall k :: k in r[id] ==> k in partial || (id in db && k in db[id]))
      && (forall other :: other != id && other in db ==> r[other] == db[other])
  {
  }

  /** Saving an empty partial entry keeps the existing values, and creates `{}` for an unknown training. */
  lemma SaveEmptyPartial(db: Db, id: string)
    ensures Saved(db, id, map[])[id] == if id in db then db[id] else map[]
  {
    var e := if id in db then db[id] else map[];
    assert e + map[] == e;
  }

  /** Saving the same partial entry twice is saving it once. */
  lemma SaveIdempotent(db: Db, id: string, partial: Entry)
    ensures Saved(Saved(db, id, partial), id, partial) == Saved(db, id, partial)
  {
    var e := if id in db then db[id] else map[];
    assert (e + partial) + partial == e + partial;
  }

  /** The storage item: `None` while nothing was ever saved. */
  class Storage {
    var item: Option<Db>

    constructor()
      ensures item.None?
    {
      item := None;
    }

    /** What `loadProgress` returns: the stored object, or `{}` when there is none. */
    function Contents(): Db
      reads this
    {
      if item.Some? then item.value else map[]
    }

    /** `loadProgress()`. */
    method LoadProgress() returns (db: Db)
      ensures db == Contents()
      ensures item.None? ==> db == map[]
    {
      db := if item.Some? then item.value else map[];
    }

    /** `saveProgress(trainingId, partial)`: read the whole store, merge one entry, write it back. */
    method SaveProgress(trainingId: string, partial: Entry)
      modifies this
      ensures item == Some(Saved(old(Contents()), trainingId, partial))
      ensures Contents() == Saved(old(Contents()), trainingId, partial)
    {
      var db := LoadProgress();
      db := db[trainingId := (if trainingId in db then db[trainingId] else map[]) + partial];
      item := Some(db);
    }
  }
}
