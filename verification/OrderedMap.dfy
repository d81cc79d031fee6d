/** std::map<std::string, std::string>, as the sequence of its entries in the order of their keys. */
module OrderedMap {

  datatype Entry = Entry(key: string, value: string)

  /** The order of strings: by the first byte that differs, a prefix first. */
  predicate Less(a: string, b: string) {
    if b == "" then false
    else if a == "" then true
    else a[0] < b[0] || (a[0] == b[0] && Less(a[1..], b[1..]))
  }

  lemma {:induction false} LessTotal(a: string, b: string)
    ensures a == b || Less(a, b) || Less(b, a)
    ensures !(Less(a, b) && Less(b, a))
  {
    if a != "" && b != "" {
      LessTotal(a[1..], b[1..]);
      assert a == [a[0]] + a[1..] && b == [b[0]] + b[1..];
    }
  }

  lemma {:induction false} LessTransitive(a: string, b: string, c: string)
    requires Less(a, b) && Less(b, c)
    ensures Less(a, c)
  {
    if a != "" && a[0] == b[0] == c[0] {
      LessTransitive(a[1..], b[1..], c[1..]);
    }
  }

  predicate Sorted(entries: seq<Entry>) {
    forall i, j | 0 <= i < j < |entries| :: Less(entries[i].key, entries[j].key)
  }

  /** m[key] = value */
  function Put(entries: seq<Entry>, key: string, value: string): seq<Entry> {
    if entries == [] || Less(key, entries[0].key) then [Entry(key, value)] + entries
    else if key == entries[0].key then [Entry(key, value)] + entries[1..]
    else [entries[0]] + Put(entries[1..], key, value)
  }

  /** What the entries say. */
  function MapOf(entries: seq<Entry>): map<string, string> {
    if entries == [] then map[]
    else MapOf(entries[..|entries| - 1])[entries[|entries| - 1].key := entries[|entries| - 1].value]
  }

  lemma {:induction false} MapOfKeys(entries: seq<Entry>, key: string)
    ensures key in MapOf(entries) <==> exists i :: 0 <= i < |entries| && entries[i].key == key
  {
    if entries != [] {
      var n := |entries| - 1;
      MapOfKeys(entries[..n], key);
      if exists i :: 0 <= i < n && entries[..n][i].key == key {
        var i :| 0 <= i < n && entries[..n][i].key == key;
        assert entries[i].key == key;
      }
      if i :| 0 <= i < |entries| && entries[i].key == key {
        assert i < n ==> entries[..n][i].key == key;
      }
    }
  }

  lemma {:induction false} MapOfAppend(a: seq<Entry>, b: seq<Entry>)
    ensures MapOf(a + b) == MapOf(a) + MapOf(b)
    decreases |b|
  {
    if b == [] {
      assert a + b == a;
    } else {
      var n := |b| - 1;
      assert (a + b)[..|a + b| - 1] == a + b[..n];
      MapOfAppend(a, b[..n]);
    }
  }

  lemma MapOfOne(e: Entry)
    ensures MapOf([e]) == map[e.key := e.value]
  {
    assert [e][..0] == [];
  }

  lemma {:induction false} PutSorted(entries: seq<Entry>, key: string, value: string)
    requires Sorted(entries)
    ensures Sorted(Put(entries, key, value))
    ensures forall e | e in Put(entries, key, value) :: e.key == key || e in entries
  {
    hide Less;
    if entries == [] {
    } else if Less(key, entries[0].key) {
      forall j | 0 < j < |entries|
        ensures Less(key, entries[j].key)
      {
        LessTransitive(key, entries[0].key, entries[j].key);
      }
    } else if key != entries[0].key {
      LessTotal(key, entries[0].key);
      var rest := Put(entries[1..], key, value);
      PutSorted(entries[1..], key, value);
      forall j | 0 <= j < |rest|
        ensures Less(entries[0].key, rest[j].key)
      {
        assert rest[j] in rest;
        if rest[j].key != key {
          var k :| 0 <= k < |entries[1..]| && entries[1..][k] == rest[j];
        }
      }
    }
  }

  /** Assigning to a key changes what is found there and nothing else. */
  lemma {:induction false} PutMeaning(entries: seq<Entry>, key: string, value: string)
    requires Sorted(entries)
    ensures MapOf(Put(entries, key, value)) == MapOf(entries)[key := value]
  {
    hide Less, MapOf, Sorted;
    if entries == [] {
      MapOfOne(Entry(key, value));
      MapOfNone();
      assert [Entry(key, value)] + entries == [Entry(key, value)];
    } else {
      var e, rest := entries[0], entries[1..];
      assert entries == [e] + rest;
      MapOfSplit(e, rest);
      SortedRest(entries);
      if Less(key, e.key) {
        MapOfSplit(Entry(key, value), entries);
        NotThere(entries, key);
      } else if key == e.key {
        MapOfSplit(Entry(key, value), rest);
        NotThere(rest, key);
      } else {
        PutMeaning(rest, key, value);
        MapOfSplit(e, Put(rest, key, value));
        NotThere(rest, e.key);
      }
    }
  }

  lemma MapOfNone()
    ensures MapOf([]) == map[]
  {
  }

  lemma MapOfSplit(e: Entry, rest: seq<Entry>)
    ensures MapOf([e] + rest) == map[e.key := e.value] + MapOf(rest)
  {
    hide MapOf;
    MapOfAppend([e], rest);
    MapOfOne(e);
  }

  lemma SortedRest(entries: seq<Entry>)
    requires Sorted(entries) && entries != []
    ensures Sorted(entries[1..]) && (|entries| > 1 ==> Less(entries[0].key, entries[1].key))
  {
    hide Less;
  }

  lemma NotThere(entries: seq<Entry>, key: string)
    requires Sorted(entries) && (entries != [] ==> Less(key, entries[0].key))
    ensures key !in MapOf(entries)
  {
    hide Less;
    MapOfKeys(entries, key);
    forall i | 0 <= i < |entries|
      ensures entries[i].key != key
    {
      LessTotal(key, entries[i].key);
      if i > 0 {
        LessTransitive(key, entries[0].key, entries[i].key);
      }
    }
  }
}
