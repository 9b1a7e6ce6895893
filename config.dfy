/**
 * The configuration store (Application/Core/Config.php): one process-wide
 * nested array, merged shallowly by Load and walked with dot-separated keys
 * by Set and Get. Get is modelled as written: after stepping into the child
 * under key k it tests child[k] again, not the next key.
 */
module Config {
  import opened ByteStrings

  /** A PHP value as it can sit in the configuration (floats and objects are not modelled). */
  datatype Value = Null | Bool(b: bool) | Int(i: int) | Str(s: Bytes) | Arr(m: map<Bytes, Value>)

  /** PHP's conversion to bool: what `$v ? a : b` and `$v == true` test. */
  predicate Truthy(v: Value) {
    match v
    case Null => false
    case Bool(b) => b
    case Int(i) => i != 0
    case Str(s) => !IsEmptyString(s)
    case Arr(m) => |m| > 0
  }

  /** `$v != ''` under PHP 8's loose comparison fails exactly for null, false and the empty string. */
  predicate LooselyEmptyString(v: Value) {
    v == Null || v == Bool(false) || v == Str("")
  }

  /** The string PHP produces when v is concatenated. */
  function AsString(v: Value): Bytes {
    match v
    case Null => ""
    case Bool(b) => if b then "1" else ""
    case Int(i) => Decimal(i)
    case Str(s) => s
    case Arr(_) => "Array"
  }

  /** `$m[$k]` as read by isset and by a reference bind: a missing key reads as null. */
  function Entry(m: map<Bytes, Value>, k: Bytes): Value {
    if k in m then m[k] else Null
  }

  /** isset($v) && !empty($v) && is_array($v). */
  predicate IsFilledArray(v: Value) {
    v.Arr? && |v.m| > 0
  }

  /** array_filter on a list of strings: drops "" and "0", keeps the rest in order. */
  function NonEmpty(segments: seq<Bytes>): (r: seq<Bytes>)
    ensures |r| <= |segments|
    ensures forall i :: 0 <= i < |r| ==> !IsEmptyString(r[i])
  {
    if |segments| == 0 then []
    else (if IsEmptyString(segments[0]) then [] else [segments[0]]) + NonEmpty(segments[1..])
  }

  /**
   * The keys Set and Get walk for a dotted key. The loops read `$keyArr[0]`:
   * on the first step that is the first segment, or null (used as the key "")
   * when array_filter removed it; after each array_shift the remaining kept
   * segments are re-indexed from 0.
   */
  function KeyPath(key: Bytes): seq<Bytes> {
    var segments := Explode(".", key);
    var kept := NonEmpty(segments);
    if |kept| == 0 then [] else [if IsEmptyString(segments[0]) then "" else kept[0]] + kept[1..]
  }

  /** array_merge of two string-keyed arrays: the incoming value wins on every key it has. */
  function Merge(base: map<Bytes, Value>, incoming: map<Bytes, Value>): (r: map<Bytes, Value>)
    ensures r.Keys == base.Keys + incoming.Keys
    ensures forall k :: k in incoming ==> r[k] == incoming[k]
    ensures forall k :: k in base && k !in incoming ==> r[k] == base[k]
  {
    base + incoming
  }

  // ------------------------------------------------------------- writing

  /**
   * What a step of Set descends into: an array as it is; a missing or null
   * entry is first set to [] (Config.php:62-63); false is turned into an
   * array by the write; any other scalar makes PHP throw.
   */
  function Container(v: Value): Option<map<Bytes, Value>> {
    match v
    case Arr(m) => Some(m)
    case Null => Some(map[])
    case Bool(b) => if b then None else Some(map[])
    case _ => None
  }

  /** The array that results from storing value at path below node, or None when PHP throws on the way. */
  function SetPath(node: map<Bytes, Value>, path: seq<Bytes>, value: Value): Option<map<Bytes, Value>>
    requires |path| >= 1
    decreases |path|
  {
    if |path| == 1 then Some(node[path[0] := value])
    else match Container(Entry(node, path[0]))
      case None => None
      case Some(child) =>
        match SetPath(child, path[1..], value)
        case None => None
        case Some(child') => Some(node[path[0] := Arr(child')])
  }

  /** How a call to Config::set ends. */
  datatype SetOutcome =
    | Stored(root: map<Bytes, Value>)
    | Diverges      // no key survives array_filter: the do/while never reaches its break
    | ScalarInPath  // an entry on the way is a scalar PHP cannot index into

  function Assign(root: map<Bytes, Value>, key: Bytes, value: Value): SetOutcome {
    var path := KeyPath(key);
    if |path| == 0 then Diverges
    else match SetPath(root, path, value)
      case None => ScalarInPath
      case Some(r) => Stored(r)
  }

  /** One map per level, rebuilt from the innermost level outward. */
  function Rebuild(nodes: seq<map<Bytes, Value>>, keys: seq<Bytes>, inner: map<Bytes, Value>): map<Bytes, Value>
    requires |nodes| == |keys|
    decreases |nodes|
  {
    if |nodes| == 0 then inner
    else Rebuild(nodes[..|nodes| - 1], keys[..|keys| - 1], nodes[|nodes| - 1][keys[|keys| - 1] := Arr(inner)])
  }

  function Wrap(nodes: seq<map<Bytes, Value>>, keys: seq<Bytes>, inner: Option<map<Bytes, Value>>): Option<map<Bytes, Value>>
    requires |nodes| == |keys|
  {
    match inner
    case None => None
    case Some(m) => Some(Rebuild(nodes, keys, m))
  }

  /** One step of Set's descent, seen from the whole path: the array passed through joins the levels to rebuild. */
  lemma WrapStep(nodes: seq<map<Bytes, Value>>, keys: seq<Bytes>, node: map<Bytes, Value>,
                 path: seq<Bytes>, child: map<Bytes, Value>, value: Value)
    requires |nodes| == |keys| && |path| >= 2
    requires Container(Entry(node, path[0])) == Some(child)
    ensures Wrap(nodes, keys, SetPath(node, path, value))
         == Wrap(nodes + [node], keys + [path[0]], SetPath(child, path[1..], value))
  {
    var ns, ks := nodes + [node], keys + [path[0]];
    assert ns[..|ns| - 1] == nodes && ks[..|ks| - 1] == keys;
  }

  // ------------------------------------------------------------- reading

  /**
   * Config::get's walk as written (Config.php:95-119): before stepping on, the
   * child reached under key k must itself hold a non-empty array under k. With
   * no key left it keeps stepping into "" until that test fails.
   */
  function Descend(node: map<Bytes, Value>, keys: seq<Bytes>): Value
    decreases |keys|, Arr(node)
  {
    var k := if |keys| == 0 then "" else keys[0];
    if |keys| == 1 then Entry(node, k)
    else
      var child := Entry(node, k);
      if child.Arr? && IsFilledArray(Entry(child.m, k)) then
        Descend(child.m, if |keys| == 0 then [] else keys[1..])
      else Null
  }

  function Lookup(root: map<Bytes, Value>, key: Bytes): Value {
    Descend(root, KeyPath(key))
  }

  /** The walk the comments of Config.php describe: step into the entry under each key in turn. */
  function Reach(node: map<Bytes, Value>, keys: seq<Bytes>): Value
    requires |keys| >= 1
    decreases |keys|
  {
    if |keys| == 1 then Entry(node, keys[0])
    else match Entry(node, keys[0])
      case Arr(m) => Reach(m, keys[1..])
      case _ => Null
  }

  function LookupIntended(root: map<Bytes, Value>, key: Bytes): Value {
    var path := KeyPath(key);
    if |path| == 0 then Null else Reach(root, path)
  }

  // ------------------------------------------------------------- the store

  class ConfigStore {
    var entries: map<Bytes, Value>

    constructor ()
      ensures entries == map[]
    {
      entries := map[];
    }

    /** Config::load: array_merge into the stored array. */
    method Load(incoming: map<Bytes, Value>)
      modifies this
      ensures entries == Merge(old(entries), incoming)
    {
      entries := Merge(entries, incoming);
    }

    /** Config::set: walk the key path creating missing levels, then store the value at the last key. */
    method Set(key: Bytes, value: Value) returns (outcome: SetOutcome)
      modifies this
      ensures outcome == Assign(old(entries), key, value)
      ensures entries == if outcome.Stored? then outcome.root else old(entries)
    {
      var path := KeyPath(key);
      if |path| == 0 {
        // PHP keeps nesting [] under "" without end; the process dies before returning.
        return Diverges;
      }
      // Walk down, remembering every array the reference passes through.
      var above: seq<map<Bytes, Value>> := [];
      var node := entries;
      var i := 0;
      while i < |path| - 1
        invariant 0 <= i < |path| && |above| == i
        invariant entries == old(entries)
        invariant SetPath(entries, path, value) == Wrap(above, path[..i], SetPath(node, path[i..], value))
      {
        var step := Container(Entry(node, path[i]));
        if step.None? {
          assert SetPath(node, path[i..], value) == None;
          return ScalarInPath;
        }
        WrapStep(above, path[..i], node, path[i..], step.value, value);
        assert path[..i] + [path[i]] == path[..i + 1];
        assert path[i..][1..] == path[i + 1..];
        above, node, i := above + [node], step.value, i + 1;
      }
      assert path[i..] == [path[i]];
      // The assignment through the reference writes the value into every enclosing array.
      var cur := Rebuild(above, path[..i], node[path[i] := value]);
      entries := cur;
      outcome := Stored(cur);
    }

    /** Config::get as written. */
    method Get(key: Bytes) returns (v: Value)
      ensures v == Lookup(entries, key)
    {
      var keys := KeyPath(key);
      var node := entries;
      while true
        invariant Descend(node, keys) == Lookup(entries, key)
        decreases |keys|, Arr(node)
      {
        var k := if |keys| == 0 then "" else keys[0];
        if |keys| == 1 {
          return Entry(node, k);
        }
        var child := Entry(node, k);
        if !(child.Arr? && IsFilledArray(Entry(child.m, k))) {
          return Null;
        }
        node := child.m;
        if |keys| > 0 {
          keys := keys[1..];
        }
      }
    }
  }

  // ------------------------------------------------------------- lemmas

  /** A key without a dot that is not "" or "0" is a one-key path. */
  lemma SingleSegmentPath(key: Bytes)
    requires '.' !in key && !IsEmptyString(key)
    ensures KeyPath(key) == [key]
  {
    ContainsByte(key, '.');
    ExplodeWithoutDelimiter(".", key);
    assert NonEmpty([key]) == [key] by {
      assert [key][1..] == [];
    }
  }

  /** Set with a single-segment key updates exactly that top-level entry. */
  lemma SetSingleSegment(root: map<Bytes, Value>, key: Bytes, value: Value)
    requires '.' !in key && !IsEmptyString(key)
    ensures Assign(root, key, value) == Stored(root[key := value])
  {
    SingleSegmentPath(key);
  }

  /** Get with a single-segment key reads the stored top-level entry (null when missing). */
  lemma GetSingleSegment(root: map<Bytes, Value>, key: Bytes)
    requires '.' !in key && !IsEmptyString(key)
    ensures Lookup(root, key) == Entry(root, key)
  {
    SingleSegmentPath(key);
  }

  /** Set then Get of one single-segment key gives back the value. */
  lemma SetThenGetSingleSegment(root: map<Bytes, Value>, key: Bytes, value: Value)
    requires '.' !in key && !IsEmptyString(key)
    ensures Assign(root, key, value).Stored?
    ensures Lookup(Assign(root, key, value).root, key) == value
  {
    SetSingleSegment(root, key, value);
    GetSingleSegment(root[key := value], key);
  }

  /** Segments after the first that are "" or "0" are skipped: "a..b" and "a.0.b" walk like "a.b". */
  lemma {:induction false} KeyPathSkipsEmptySegments(key: Bytes)
    ensures forall i :: 1 <= i < |KeyPath(key)| ==> !IsEmptyString(KeyPath(key)[i])
  {
    var segments := Explode(".", key);
    var kept := NonEmpty(segments);
    var path := KeyPath(key);
    if |kept| > 0 {
      assert path[1..] == kept[1..];
      forall i | 1 <= i < |path| ensures !IsEmptyString(path[i]) {
        assert path[i] == path[1..][i - 1] == kept[i];
      }
    }
  }

  /** A dotted key of two real segments walks those two keys. */
  lemma TwoSegmentPath(x: Bytes, y: Bytes)
    requires '.' !in x && '.' !in y && !IsEmptyString(x) && !IsEmptyString(y)
    ensures KeyPath(x + "." + y) == [x, y]
  {
    ExplodeOnce(x, y);
    assert NonEmpty([y]) == [y];
  }

  /** An empty middle segment ("" or "0") is dropped: x.0.y and x..y walk like x.y. */
  lemma EmptyMiddleSegmentSkipped(x: Bytes, e: Bytes, y: Bytes)
    requires '.' !in x && '.' !in e && '.' !in y
    requires !IsEmptyString(x) && IsEmptyString(e) && !IsEmptyString(y)
    ensures KeyPath(x + "." + e + "." + y) == KeyPath(x + "." + y) == [x, y]
  {
    ExplodeAround(x, e, y);
    assert NonEmpty([e, y]) == [y] by {
      assert [e, y][1..] == [y];
      assert NonEmpty([y]) == [y];
    }
    TwoSegmentPath(x, y);
  }

  /** explode(".", x . "." . y) for dot-free x and y. */
  lemma ExplodeOnce(x: Bytes, y: Bytes)
    requires '.' !in x && '.' !in y
    ensures Explode(".", x + "." + y) == [x, y]
  {
    ExplodeAfterPrefix(".", x, y);
    ContainsByte(y, '.');
    ExplodeWithoutDelimiter(".", y);
  }

  /** explode(".", x . "." . y . "." . z) for dot-free x, y and z. */
  lemma ExplodeAround(x: Bytes, y: Bytes, z: Bytes)
    requires '.' !in x && '.' !in y && '.' !in z
    ensures Explode(".", x + "." + y + "." + z) == [x, y, z]
  {
    assert x + "." + y + "." + z == x + "." + (y + "." + z);
    ExplodeAfterPrefix(".", x, y + "." + z);
    ExplodeOnce(y, z);
  }

  /** The nested arrays Set creates below a missing entry. */
  function Nested(keys: seq<Bytes>, value: Value): Value
    requires |keys| >= 1
    decreases |keys|
  {
    if |keys| == 1 then Arr(map[keys[0] := value]) else Arr(map[keys[0] := Nested(keys[1..], value)])
  }

  /** A dotted Set under a missing (or null) entry creates every level as a fresh array holding only the next key. */
  lemma {:induction false} SetCreatesMissingLevels(node: map<Bytes, Value>, path: seq<Bytes>, value: Value)
    requires |path| >= 2
    requires Entry(node, path[0]) == Null
    ensures SetPath(node, path, value) == Some(node[path[0] := Nested(path[1..], value)])
    decreases |path|
  {
    var empty: map<Bytes, Value> := map[];
    if |path| == 2 {
      assert SetPath(empty, path[1..], value) == Some(empty[path[1] := value]);
    } else {
      SetCreatesMissingLevels(empty, path[1..], value);
      assert path[1..][1..] == path[2..];
    }
  }

  /** A stored value is found again by the intended walk, and every other top-level entry is left as it was. */
  lemma {:induction false} SetPathStoresValue(node: map<Bytes, Value>, path: seq<Bytes>, value: Value)
    requires |path| >= 1
    requires SetPath(node, path, value).Some?
    ensures Reach(SetPath(node, path, value).value, path) == value
    ensures SetPath(node, path, value).value.Keys == node.Keys + {path[0]}
    ensures forall k :: k in node && k != path[0] ==> SetPath(node, path, value).value[k] == node[k]
    decreases |path|
  {
    if |path| > 1 {
      var child := Container(Entry(node, path[0])).value;
      SetPathStoresValue(child, path[1..], value);
    }
  }

  /** The entry under any key outside the written path, at any depth, is left as it was. */
  lemma {:induction false} SetPathKeepsOthers(node: map<Bytes, Value>, path: seq<Bytes>, value: Value, q: seq<Bytes>, j: nat)
    requires |path| >= 1 && SetPath(node, path, value).Some?
    requires j < |path| && j < |q| && q[..j] == path[..j] && q[j] != path[j]
    ensures Reach(SetPath(node, path, value).value, q) == Reach(node, q)
    decreases |path|
  {
    var r := SetPath(node, path, value).value;
    if j == 0 {
      assert Entry(r, q[0]) == Entry(node, q[0]);
    } else {
      assert q[0] == path[..j][0] == path[0];
      var child := Container(Entry(node, path[0])).value;
      var child' := SetPath(child, path[1..], value).value;
      assert r[path[0]] == Arr(child');
      assert q[1..][..j - 1] == path[1..][..j - 1];
      SetPathKeepsOthers(child, path[1..], value, q[1..], j - 1);
      if !Entry(node, path[0]).Arr? {
        assert child == map[];
        EmptyReachesNothing(q[1..]);
      }
    }
  }

  lemma EmptyReachesNothing(keys: seq<Bytes>)
    requires |keys| >= 1
    ensures Reach(map[], keys) == Null
  {
  }

  /** array_filter keeps exactly the segments other than "" and "0". */
  lemma {:induction false} NonEmptyKeeps(segments: seq<Bytes>)
    ensures forall s :: s in NonEmpty(segments) <==> s in segments && !IsEmptyString(s)
    decreases |segments|
  {
    if |segments| > 0 {
      NonEmptyKeeps(segments[1..]);
      assert segments == [segments[0]] + segments[1..];
    }
  }

  /** array_filter keeps order: filtering a concatenation filters each part. */
  lemma {:induction false} NonEmptyConcat(a: seq<Bytes>, b: seq<Bytes>)
    ensures NonEmpty(a + b) == NonEmpty(a) + NonEmpty(b)
    decreases |a|
  {
    if |a| == 0 {
      assert a + b == b;
    } else {
      assert (a + b)[0] == a[0] && (a + b)[1..] == a[1..] + b;
      NonEmptyConcat(a[1..], b);
    }
  }

  /** Get on a key with no segment left (such as "" or "0") is always null. */
  lemma {:induction false} DescendWithoutKeys(node: map<Bytes, Value>)
    ensures Descend(node, []) == Null
    decreases Arr(node)
  {
    var child := Entry(node, "");
    if child.Arr? && IsFilledArray(Entry(child.m, "")) {
      DescendWithoutKeys(child.m);
    }
  }

  /**
   * A multi-segment Get can be non-null only when the first child it steps
   * into holds a non-empty array under the SAME key (Config.php:105).
   */
  lemma GetMultiSegmentNeedsRepeatedKey(root: map<Bytes, Value>, key: Bytes)
    requires |KeyPath(key)| >= 2
    requires Lookup(root, key) != Null
    ensures var k := KeyPath(key)[0];
            Entry(root, k).Arr? && IsFilledArray(Entry(Entry(root, k).m, k))
  {
  }

  /** With the intended walk, what Set stores under any key is what Get returns. */
  lemma SetThenGetIntended(root: map<Bytes, Value>, key: Bytes, value: Value)
    requires Assign(root, key, value).Stored?
    ensures LookupIntended(Assign(root, key, value).root, key) == value
  {
    SetPathStoresValue(root, KeyPath(key), value);
  }

  /**
   * Get on a two-segment key a.b: the child under a must itself hold a
   * non-empty array under a; only then is the entry under b read.
   */
  lemma LookupTwoSegments(root: map<Bytes, Value>, a: Bytes, b: Bytes)
    requires '.' !in a && '.' !in b && !IsEmptyString(a) && !IsEmptyString(b)
    ensures Lookup(root, a + "." + b)
         == if Entry(root, a).Arr? && IsFilledArray(Entry(Entry(root, a).m, a)) then Entry(Entry(root, a).m, b) else Null
    ensures LookupIntended(root, a + "." + b) == if Entry(root, a).Arr? then Entry(Entry(root, a).m, b) else Null
  {
    TwoSegmentPath(a, b);
    var keys := [a, b];
    assert keys[1..] == [b];
    var child := Entry(root, a);
    if child.Arr? {
      assert Descend(child.m, [b]) == Entry(child.m, b);
      assert Reach(child.m, [b]) == Entry(child.m, b);
    }
    assert Descend(root, keys) == if child.Arr? && IsFilledArray(Entry(child.m, a)) then Descend(child.m, [b]) else Null;
    assert Reach(root, keys) == if child.Arr? then Reach(child.m, [b]) else Null;
  }

  /**
   * The cache settings shaped as the sample configuration ships them are
   * unreadable through Get: "cache.enable" is null although the intended
   * walk finds true.
   */
  lemma CacheEnableReadsNull()
    ensures var root := map["cache" := Arr(map["enable" := Bool(true), "key" := Str("v1")])];
            Lookup(root, "cache.enable") == Null && LookupIntended(root, "cache.enable") == Bool(true)
  {
    var inner := map["enable" := Bool(true), "key" := Str("v1")];
    var root := map["cache" := Arr(inner)];
    var c: Bytes, e: Bytes := "cache", "enable";
    assert c + "." + e == "cache.enable";
    LookupTwoSegments(root, c, e);
    assert Entry(root, c) == Arr(inner);
    assert c !in inner;
  }
}
