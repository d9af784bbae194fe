// What all instances share: the rows of the database, and the copies of them in Redis.
module KeyStore {
  import opened Prelude

  datatype Record = Record(user: string, tier: string, active: bool, expiresAt: Option<int>)

  datatype Tier = Tier(capacity: int, refill: real, monthlyQuota: int)

  // The Redis hash of a key. One that holds nothing but a request count cannot be read as a record.
  datatype KeyCopy = Whole(record: Record) | Partial

  // A record without an expiry leaves that field of the hash as it was.
  function Merged(copy: Option<KeyCopy>, record: Record): Record {
    match copy
    case Some(Whole(before)) => if record.expiresAt.None? then record.(expiresAt := before.expiresAt) else record
    case _ => record
  }

  datatype Stores = Stores(
    keys: map<string, Record>, keyCopies: map<string, KeyCopy>,
    tiers: map<string, Tier>, tierCopies: map<string, Tier>)
  {
    function CopyOf(key: string): Option<KeyCopy> {
      if key in keyCopies then Some(keyCopies[key]) else None
    }

    function PutKey(key: string, record: Record): Stores {
      this.(keys := keys[key := record])
    }

    function DropKey(key: string): Stores {
      this.(keys := keys - {key})
    }

    // HSET of all fields that are not None.
    function PutKeyCopy(key: string, record: Record): Stores {
      this.(keyCopies := keyCopies[key := Whole(Merged(CopyOf(key), record))])
    }

    function DropKeyCopy(key: string): Stores {
      this.(keyCopies := keyCopies - {key})
    }

    // HINCRBY of the request count creates a missing hash.
    function CountOnCopy(key: string): Stores {
      if key in keyCopies then this else this.(keyCopies := keyCopies[key := Partial])
    }

    function PutTier(name: string, tier: Tier): Stores {
      this.(tiers := tiers[name := tier])
    }

    function DropTier(name: string): Stores {
      this.(tiers := tiers - {name})
    }

    function PutTierCopy(name: string, tier: Tier): Stores {
      this.(tierCopies := tierCopies[name := tier])
    }

    function DropTierCopy(name: string): Stores {
      this.(tierCopies := tierCopies - {name})
    }

    // Neither a row nor a copy.
    predicate Gone(key: string) {
      key !in keys && key !in keyCopies
    }
  }

  const EMPTY := Stores(map[], map[], map[], map[])

  // A save leaves a copy that reads as the record saved, unless it takes away an expiry: that
  // field of the hash stays.
  lemma CopyReadsAsSavedIff(store: Stores, key: string, record: Record)
    ensures store.PutKeyCopy(key, record).CopyOf(key) == Some(Whole(record))
      <==> match store.CopyOf(key)
           case Some(Whole(before)) => record.expiresAt.Some? || before.expiresAt.None?
           case _ => true
  {
  }
}
