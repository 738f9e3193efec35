/** The chained hash table of misc.c, proved to be a map from names to data.

    An entry's data is an index: of the container or of the thread node it stands for. */
module HashTable {

  const HASHMULT: nat := 29
  const ULONG: nat := 0x1_0000_0000_0000_0000   // one more than the largest unsigned long

  datatype Entry = Entry(name: string, data: int)

  /** Polynomial of the letters of the key, in wrapping unsigned long arithmetic. */
  function Polynomial(key: string): nat {
    if key == "" then 0
    else (Polynomial(key[..|key| - 1]) * HASHMULT + key[|key| - 1] as nat) % ULONG
  }

  method HashIndex(size: nat, key: string) returns (i: nat)
    requires size > 0
    ensures i == Polynomial(key) % size
  {
    var ret := 0;
    for n := 0 to |key|
      invariant ret == Polynomial(key[..n])
    {
      ret := ret * HASHMULT % ULONG;
      ret := (ret + key[n] as nat) % ULONG;
      assert key[..n + 1][..n] == key[..n];
    }
    assert key[..|key|] == key;
    i := ret % size;
  }

  /** The names of bucket b are those hashing to i, each once, with the data m gives them. */
  ghost predicate GoodBucket(b: seq<Entry>, i: nat, size: nat, m: map<string, int>)
    requires size > 0
  {
    && (forall j :: 0 <= j < |b| ==> Polynomial(b[j].name) % size == i && b[j].name in m && m[b[j].name] == b[j].data)
    && (forall j, k :: 0 <= j < k < |b| ==> b[j].name != b[k].name)
    && (forall s :: s in m && Polynomial(s) % size == i ==> Entry(s, m[s]) in b)
  }

  /** What replacing an entry does to its bucket, and to the others. */
  lemma Replaced(b: seq<Entry>, i: nat, size: nat, m: map<string, int>, j: nat, data: int)
    requires size > 0 && GoodBucket(b, i, size, m) && j < |b|
    ensures GoodBucket(b[j := Entry(b[j].name, data)], i, size, m[b[j].name := data])
  {
    var (key, b') := (b[j].name, b[j := Entry(b[j].name, data)]);
    forall s | s in m && Polynomial(s) % size == i
      ensures Entry(s, m[key := data][s]) in b'
    {
      if s == key {
        assert b'[j] == Entry(key, data);
      } else {
        var k :| 0 <= k < |b| && b[k] == Entry(s, m[s]);
        assert b'[k] == b[k];
      }
    }
  }

  lemma ReplacedElsewhere(b: seq<Entry>, i: nat, size: nat, m: map<string, int>, key: string, data: int)
    requires size > 0 && GoodBucket(b, i, size, m) && Polynomial(key) % size != i
    ensures GoodBucket(b, i, size, m[key := data])
  {
  }

  class HashTab {
    const table: array<seq<Entry>>
    ghost var contents: map<string, int>

    ghost predicate Valid()
      reads this, table
    {
      && table.Length > 0
      && forall i :: 0 <= i < table.Length ==> GoodBucket(table[i], i, table.Length, contents)
    }

    constructor (size: nat)
      requires size > 0
      ensures Valid() && contents == map[] && fresh(table)
    {
      table := new seq<Entry>[size](_ => []);
      contents := map[];
    }

    method Lookup(key: string) returns (found: bool, data: int)
      requires Valid()
      ensures found == (key in contents)
      ensures found ==> data == contents[key]
    {
      var i := HashIndex(table.Length, key);
      var ret := table[i];
      ghost var d := 0;
      while ret != []
        invariant 0 <= d <= |table[i]| && ret == table[i][d..]
        invariant forall j :: 0 <= j < d ==> table[i][j].name != key
        decreases |ret|
      {
        if key == ret[0].name {
          return true, ret[0].data;
        }
        ret, d := ret[1..], d + 1;
      }
      return false, 0;
    }

    /** The caller makes sure that the entry is not in the table yet. */
    method Add(key: string, data: int)
      requires Valid() && key !in contents
      modifies this, table
      ensures Valid() && contents == old(contents)[key := data]
    {
      var i := HashIndex(table.Length, key);
      table[i] := [Entry(key, data)] + table[i];
      contents := contents[key := data];
    }

    method LookupAndAdd(key: string, data: int) returns (d: int)
      requires Valid()
      modifies this, table
      ensures Valid()
      ensures key in old(contents) ==> contents == old(contents) && d == contents[key]
      ensures key !in old(contents) ==> contents == old(contents)[key := data] && d == data
    {
      var found, r := Lookup(key);
      if found {
        return r;
      }
      Add(key, data);
      d := data;
    }

    /** Overwrite the data of an entry that is in the table. */
    method Replace(key: string, data: int)
      requires Valid() && key in contents
      modifies this, table
      ensures Valid() && contents == old(contents)[key := data]
    {
      var i := HashIndex(table.Length, key);
      var j := 0;
      var b := table[i];
      assert Entry(key, contents[key]) in b;
      while table[i][j].name != key
        invariant 0 <= j < |table[i]| && table[i] == b
        invariant exists k :: j <= k < |b| && b[k].name == key
        decreases |table[i]| - j
      {
        j := j + 1;
      }
      Replaced(b, i, table.Length, contents, j, data);
      forall k | 0 <= k < table.Length && k != i
        ensures GoodBucket(table[k], k, table.Length, contents[key := data])
      {
        ReplacedElsewhere(table[k], k, table.Length, contents, key, data);
      }
      table[i] := b[j := Entry(key, data)];
      contents := contents[key := data];
    }

    method Reset()
      requires Valid()
      modifies this, table
      ensures Valid() && contents == map[]
    {
      for i := 0 to table.Length
        invariant forall k :: 0 <= k < i ==> table[k] == []
      {
        table[i] := [];
      }
      contents := map[];
    }
  }
}
