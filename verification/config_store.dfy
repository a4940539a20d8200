/**
 * The configuration store of fch.py (read, readAll, write): a flat YAML mapping
 * from setting names to scalar values. The YAML document is modelled as an
 * association list, which keeps the insertion order of a Python dict; the file
 * itself is an `Option<Doc>` where `None` stands for a missing, unreadable,
 * malformed or empty file, all of which the source reads as `{}`.
 */
module ConfigStore {
  import opened Wrappers

  /** A YAML scalar as the source sees it after loading. */
  datatype Value = Int(i: int) | Bool(b: bool) | Str(s: string) | Null | Other

  datatype Pair = Pair(key: string, value: Value)

  type Doc = seq<Pair>

  /** The keys of a document, in document order (Python's `list(data.keys())`). */
  function Keys(d: Doc): (ks: seq<string>)
    ensures |ks| == |d|
  {
    if d == [] then [] else [d[0].key] + Keys(d[1..])
  }

  /** Position i of readAll is the key of the i-th pair. */
  lemma {:induction false} KeyAt(d: Doc, i: nat)
    requires i < |d|
    ensures Keys(d)[i] == d[i].key
  {
    if i > 0 {
      KeyAt(d[1..], i - 1);
    }
  }

  /** A loaded YAML mapping never repeats a key. */
  predicate DistinctKeys(d: Doc) {
    forall i, j :: 0 <= i < j < |d| ==> d[i].key != d[j].key
  }

  /** `data.get(key)`: the value of the key, `Null` (Python's None) when absent. */
  function Lookup(d: Doc, key: string): (v: Value)
    ensures key !in Keys(d) ==> v == Null
    ensures key in Keys(d) ==> Pair(key, v) in d
  {
    if d == [] then Null
    else if d[0].key == key then d[0].value
    else Lookup(d[1..], key)
  }

  /** `data[key] = v` on a dict: replace in place when present, append otherwise. */
  function Put(d: Doc, key: string, v: Value): (r: Doc)
    ensures key in Keys(r)
  {
    if d == [] then [Pair(key, v)]
    else if d[0].key == key then [Pair(key, v)] + d[1..]
    else [d[0]] + Put(d[1..], key, v)
  }

  /** Loading tolerates a missing or corrupt file by treating it as empty. */
  function Load(file: Option<Doc>): (d: Doc)
    ensures file.None? ==> d == []
    ensures file.Some? ==> d == file.value
  {
    file.GetOr([])
  }

  /** read(key): None for a missing file or a missing key, else the stored value. */
  function Read(file: Option<Doc>, key: string): (v: Value)
    ensures file.None? ==> v == Null
    ensures key !in Keys(Load(file)) ==> v == Null
    ensures key in Keys(Load(file)) ==> Pair(key, v) in Load(file)
  {
    Lookup(Load(file), key)
  }

  /** readAll(): the keys in file order, none for a missing file. */
  function ReadAll(file: Option<Doc>): (ks: seq<string>)
    ensures file.None? ==> ks == []
    ensures |ks| == |Load(file)|
  {
    Keys(Load(file))
  }

  /** write(name, conf): the document the file holds afterwards. */
  function Write(file: Option<Doc>, name: string, conf: Value): (d: Doc)
    ensures name in Keys(d)
    ensures Lookup(d, name) == conf
  {
    LookupPutSame(Load(file), name, conf);
    Put(Load(file), name, conf)
  }

  lemma {:induction false} LookupPutSame(d: Doc, key: string, v: Value)
    ensures Lookup(Put(d, key, v), key) == v
  {
    if d != [] && d[0].key != key {
      LookupPutSame(d[1..], key, v);
    }
  }

  lemma {:induction false} LookupPutOther(d: Doc, key: string, other: string, v: Value)
    requires other != key
    ensures Lookup(Put(d, key, v), other) == Lookup(d, other)
  {
    if d != [] && d[0].key != key {
      LookupPutOther(d[1..], key, other, v);
    }
  }

  /** Writing keeps the existing key order and appends a new key at the end. */
  lemma {:induction false} KeysPut(d: Doc, key: string, v: Value)
    ensures Keys(Put(d, key, v)) == if key in Keys(d) then Keys(d) else Keys(d) + [key]
  {
    if d == [] {
      assert Keys(Put(d, key, v)) == [key];
    } else if d[0].key == key {
      assert Keys(d) == [key] + Keys(d[1..]);
      assert Keys(Put(d, key, v)) == [key] + Keys(d[1..]);
    } else {
      var rest := Put(d[1..], key, v);
      KeysPut(d[1..], key, v);
      assert Keys(d) == [d[0].key] + Keys(d[1..]);
      assert Keys(Put(d, key, v)) == [d[0].key] + Keys(rest);
      assert key in Keys(d) <==> key in Keys(d[1..]);
    }
  }

  /** Writing a key never duplicates it, so a well-formed mapping stays well-formed. */
  lemma PutKeepsDistinct(d: Doc, key: string, v: Value)
    requires DistinctKeys(d)
    ensures DistinctKeys(Put(d, key, v))
  {
    KeysPut(d, key, v);
    var r := Put(d, key, v);
    forall i, j | 0 <= i < j < |r| ensures r[i].key != r[j].key {
      KeyAt(r, i);
      KeyAt(r, j);
      KeyAt(d, i);
      if j < |d| {
        KeyAt(d, j);
      }
    }
  }

  /** write(name, v) followed by read(name) gives v back. */
  lemma ReadAfterWrite(file: Option<Doc>, name: string, conf: Value)
    ensures Read(Some(Write(file, name, conf)), name) == conf
  {
    LookupPutSame(Load(file), name, conf);
  }

  /** write(name, v) leaves every other setting as it was. */
  lemma ReadOtherAfterWrite(file: Option<Doc>, name: string, other: string, conf: Value)
    requires other != name
    ensures Read(Some(Write(file, name, conf)), other) == Read(file, other)
  {
    LookupPutOther(Load(file), name, other, conf);
  }

  /** After write(name, v), readAll lists name; the existing keys keep their order. */
  lemma ReadAllAfterWrite(file: Option<Doc>, name: string, conf: Value)
    ensures name in ReadAll(Some(Write(file, name, conf)))
    ensures ReadAll(Some(Write(file, name, conf)))
         == if name in ReadAll(file) then ReadAll(file) else ReadAll(file) + [name]
  {
    KeysPut(Load(file), name, conf);
  }
}
