/** The dictionary (src/dictionary.c): an array of slots with cached hashes and holes. It
    implements a map from keys to values that may be NULL, whatever the hash function. */
module Dictionary {
  import opened CStrings

  const DICTMINSZ := 128

  /** The slots in use. */
  function Occupied(keys: seq<CString>): nat {
    if keys == [] then 0 else Occupied(keys[..|keys| - 1]) + (if keys[|keys| - 1].Str? then 1 else 0)
  }

  lemma {:induction false} OccupiedUpdate(keys: seq<CString>, i: nat, k: CString)
    requires i < |keys|
    ensures Occupied(keys[i := k]) == Occupied(keys) - (if keys[i].Str? then 1 else 0) + (if k.Str? then 1 else 0)
  {
    var n := |keys| - 1;
    if i == n {
      assert keys[i := k][..n] == keys[..n];
    } else {
      assert keys[i := k][..n] == keys[..n][i := k];
      OccupiedUpdate(keys[..n], i, k);
    }
  }

  /** With fewer keys than slots there is an empty slot. */
  lemma {:induction false} EmptySlotExists(keys: seq<CString>)
    ensures Occupied(keys) <= |keys|
    ensures Occupied(keys) == |keys| <==> forall i | 0 <= i < |keys| :: keys[i].Str?
  {
    if keys != [] {
      EmptySlotExists(keys[..|keys| - 1]);
    }
  }

  lemma {:induction false} OccupiedPadding(keys: seq<CString>, m: nat)
    ensures Occupied(keys + seq(m, _ => Null)) == Occupied(keys)
  {
    if m == 0 {
      assert keys + seq(0, _ => Null) == keys;
    } else {
      var padded := keys + seq(m, _ => Null);
      assert padded[..|padded| - 1] == keys + seq(m - 1, _ => Null);
      OccupiedPadding(keys, m - 1);
    }
  }

  // ---------- the abstraction ----------

  /** Slots and map agree: each stored key once, under its hash, with its value. */
  ghost predicate Represents(key: seq<CString>, val: seq<CString>, hash: seq<bv32>, hashOf: string -> bv32,
                             m: map<string, CString>)
    requires |key| == |val| == |hash|
  {
    && (forall i | 0 <= i < |key| && key[i].Str? ::
          key[i].s != "" && key[i].s in m && val[i] == m[key[i].s] && hash[i] == hashOf(key[i].s))
    && (forall i, j | 0 <= i < j < |key| && key[i].Str? :: key[i] != key[j])
    && (forall k | k in m :: exists i :: 0 <= i < |key| && key[i] == Str(k))
  }

  lemma RepresentsChange(key: seq<CString>, val: seq<CString>, hash: seq<bv32>, hashOf: string -> bv32,
                         m: map<string, CString>, i: nat, v: CString)
    requires |key| == |val| == |hash| && i < |key| && key[i].Str?
    requires Represents(key, val, hash, hashOf, m)
    ensures Represents(key, val[i := v], hash, hashOf, m[key[i].s := v])
  {
  }

  lemma RepresentsInsert(key: seq<CString>, val: seq<CString>, hash: seq<bv32>, hashOf: string -> bv32,
                         m: map<string, CString>, i: nat, k: string, v: CString)
    requires |key| == |val| == |hash| && i < |key| && key[i].Null? && k != "" && k !in m
    requires Represents(key, val, hash, hashOf, m)
    ensures Represents(key[i := Str(k)], val[i := v], hash[i := hashOf(k)], hashOf, m[k := v])
  {
    var key' := key[i := Str(k)];
    forall k' | k' in m[k := v] ensures exists j :: 0 <= j < |key'| && key'[j] == Str(k') {
      if k' == k {
        assert key'[i] == Str(k);
      } else {
        var j :| 0 <= j < |key| && key[j] == Str(k');
        assert key'[j] == Str(k');
      }
    }
  }

  /** What is written into a hole does not matter. */
  lemma RepresentsHole(key: seq<CString>, val: seq<CString>, hash: seq<bv32>, hashOf: string -> bv32,
                       m: map<string, CString>, i: nat, v: CString, h: bv32)
    requires |key| == |val| == |hash| && i < |key| && key[i].Null?
    requires Represents(key, val, hash, hashOf, m)
    ensures Represents(key[i := Null], val[i := v], hash[i := h], hashOf, m)
  {
    assert key[i := Null] == key;
  }

  lemma RepresentsRemove(key: seq<CString>, val: seq<CString>, hash: seq<bv32>, hashOf: string -> bv32,
                         m: map<string, CString>, i: nat)
    requires |key| == |val| == |hash| && i < |key| && key[i].Str?
    requires Represents(key, val, hash, hashOf, m)
    ensures Represents(key[i := Null], val[i := Null], hash[i := 0], hashOf, m - {key[i].s})
  {
    OtherKeysStay(key, key[i := Null], m, i);
  }

  lemma OtherKeysStay(key: seq<CString>, key': seq<CString>, m: map<string, CString>, i: nat)
    requires i < |key| && key[i].Str? && key' == key[i := Null]
    requires forall k | k in m :: exists j :: 0 <= j < |key| && key[j] == Str(k)
    ensures forall k | k in m - {key[i].s} :: exists j :: 0 <= j < |key'| && key'[j] == Str(k)
  {
    forall k | k in m - {key[i].s} ensures exists j :: 0 <= j < |key'| && key'[j] == Str(k) {
      var j :| 0 <= j < |key| && key[j] == Str(k);
      assert key'[j] == Str(k);
    }
  }

  lemma RepresentsGrow(key: seq<CString>, val: seq<CString>, hash: seq<bv32>, hashOf: string -> bv32,
                       m: map<string, CString>, key': seq<CString>, val': seq<CString>, hash': seq<bv32>)
    requires |key| == |val| == |hash| <= |key'| == |val'| == |hash'|
    requires Represents(key, val, hash, hashOf, m)
    requires key == key'[..|key|] && val == val'[..|key|] && hash == hash'[..|key|]
    requires forall i | |key| <= i < |key'| :: key'[i].Null?
    ensures Represents(key', val', hash', hashOf, m)
  {
    forall k | k in m ensures exists j :: 0 <= j < |key'| && key'[j] == Str(k) {
      var j :| 0 <= j < |key| && key[j] == Str(k);
      assert key'[j] == Str(k);
    }
  }

  /** Each name once, and no other keys. */
  ghost predicate Spells(keys: seq<CString>, names: set<string>) {
    && (forall i | 0 <= i < |keys| && keys[i].Str? :: keys[i].s in names)
    && (forall i, j | 0 <= i < j < |keys| && keys[i].Str? :: keys[i] != keys[j])
    && (forall k | k in names :: Str(k) in keys)
  }

  lemma SpellsInit(keys: seq<CString>, names: set<string>)
    requires keys != [] && Spells(keys, names)
    ensures Spells(keys[..|keys| - 1], if keys[|keys| - 1].Str? then names - {keys[|keys| - 1].s} else names)
  {
    assert keys == keys[..|keys| - 1] + [keys[|keys| - 1]];
  }

  /** The occupied slots are as many as the stored keys. */
  lemma {:induction false} OccupiedIsSize(keys: seq<CString>, names: set<string>)
    requires Spells(keys, names)
    ensures Occupied(keys) == |names|
  {
    if keys == [] {
      assert names == {};
    } else {
      var last := keys[|keys| - 1];
      SpellsInit(keys, names);
      if last.Str? {
        OccupiedIsSize(keys[..|keys| - 1], names - {last.s});
        assert names == (names - {last.s}) + {last.s};
      } else {
        OccupiedIsSize(keys[..|keys| - 1], names);
      }
    }
  }

  // ---------- the code ----------

  /** mem_double: a block of twice the size, the new half cleared. */
  method MemDouble<T(0)>(a: array<T>, zero: T) returns (b: array<T>)
    ensures fresh(b) && b.Length == 2 * a.Length && b[..a.Length] == a[..]
    ensures forall i | a.Length <= i < b.Length :: b[i] == zero
  {
    b := new T[2 * a.Length](_ => zero);
    forall i | 0 <= i < a.Length {
      b[i] := a[i];
    }
  }

  class Dict {
    const hashOf: string -> bv32
    var n: int
    var size: nat
    var val: array<CString>
    var key: array<CString>
    var hash: array<bv32>
    ghost var Map: map<string, CString>
    /** The empty keys that were ever set: stored as NULL, they leave no trace but the count. */
    ghost var blanks: nat

    ghost predicate Shape()
      reads this
    {
      && size == key.Length == val.Length == hash.Length && 0 < size
      && key != val && key as object != hash && val as object != hash
    }

    ghost predicate Valid()
      reads this, key, val, hash
    {
      && Shape()
      && n == Occupied(key[..]) + blanks <= size
      && Represents(key[..], val[..], hash[..], hashOf, Map)
    }

    /** dictionary_new */
    constructor (size_: nat, hashOf_: string -> bv32)
      ensures Valid() && Map == map[] && blanks == 0 && hashOf == hashOf_
      ensures fresh(key) && fresh(val) && fresh(hash)
    {
      var sz := if size_ < DICTMINSZ then DICTMINSZ else size_;
      hashOf := hashOf_;
      n, size, Map, blanks := 0, sz, map[], 0;
      val := new CString[sz](_ => Null);
      key := new CString[sz](_ => Null);
      hash := new bv32[sz](_ => 0);
      new;
      OccupiedPadding([], sz);
      assert key[..] == [] + seq(sz, _ => Null);
    }

    /** The search loop that all operations share: the slot of `k`, or `size`. */
    method Find(k: string) returns (i: nat)
      requires Valid()
      ensures i <= size
      ensures i < size ==> key[i] == Str(k) && k in Map && val[i] == Map[k]
      ensures i == size ==> k !in Map
    {
      var h := hashOf(k);
      i := 0;
      while i < size
        invariant i <= size && forall j | 0 <= j < i :: key[j] != Str(k)
      {
        if key[i].Str? && h == hash[i] && k == key[i].s {
          return;
        }
        i := i + 1;
      }
      assert forall j | 0 <= j < |key[..]| :: key[..][j] != Str(k);
    }

    /** dictionary_get */
    method Get(k: string, def: CString) returns (v: CString)
      requires Valid()
      ensures v == if k in Map then Map[k] else def
    {
      var i := Find(k);
      v := if i < size then val[i] else def;
    }

    /** The doubled arrays hold the same entries, followed by empty slots. */
    method Double()
      requires Valid()
      modifies this
      ensures Shape() && size == 2 * old(size) && n == old(n) && Map == old(Map) && blanks == old(blanks)
      ensures fresh(key) && fresh(val) && fresh(hash)
      ensures key[..] == old(key[..]) + seq(old(size), _ => Null)
      ensures val[..old(size)] == old(val[..]) && hash[..old(size)] == old(hash[..])
    {
      val := MemDouble(val, Null);
      key := MemDouble(key, Null);
      hash := MemDouble(hash, 0);
      size := size * 2;
    }

    /** The dictionary is doubled when its count has reached its size. With counted empty keys
        that is before its slots are used up. */
    method Grow()
      requires Valid()
      modifies this
      ensures Valid() && Map == old(Map) && blanks == old(blanks) && n == old(n) && n < size
      ensures size == if old(n) == old(size) then 2 * old(size) else old(size)
      ensures key == old(key) || fresh(key)
      ensures val == old(val) || fresh(val)
      ensures hash == old(hash) || fresh(hash)
    {
      EmptySlotExists(key[..]);
      if n == size {
        ghost var key0, val0, hash0 := key[..], val[..], hash[..];
        OccupiedPadding(key0, size);
        Double();
        assert key0 == key[..][..|key0|];
        RepresentsGrow(key0, val0, hash0, hashOf, Map, key[..], val[..], hash[..]);
      }
    }

    /** At that point there is an empty slot exactly if an empty key was ever set. */
    lemma FullBesideAHole()
      requires Valid() && n == size
      ensures (exists i :: 0 <= i < size && key[i].Null?) <==> 0 < blanks
    {
      EmptySlotExists(key[..]);
      assert forall i | 0 <= i < size :: key[..][i] == key[i];
    }

    /** The first empty slot. */
    method FirstEmpty() returns (i: nat)
      requires Valid() && n < size
      ensures i < size && key[i].Null? && forall j | 0 <= j < i :: key[j].Str?
    {
      EmptySlotExists(key[..]);
      i := 0;
      while i < size && key[i].Str?
        invariant i <= size && forall j | 0 <= j < i :: key[j].Str?
      {
        i := i + 1;
      }
    }

    /** Stores a key the dictionary does not have. The empty key is stored as NULL: its slot
        stays empty while the count goes up. */
    method Add(k: string, v: CString)
      requires Valid() && k !in Map
      modifies this, key, val, hash
      ensures Valid() && n == old(n) + 1
      ensures Map == if k == "" then old(Map) else old(Map)[k := XStrdup(v)]
      ensures blanks == old(blanks) + if k == "" then 1 else 0
      ensures key == old(key) || fresh(key)
      ensures val == old(val) || fresh(val)
      ensures hash == old(hash) || fresh(hash)
    {
      Grow();
      var i := FirstEmpty();
      Fill(i, k, v);
    }

    /** Puts a new key into an empty slot. */
    method Fill(i: nat, k: string, v: CString)
      requires Valid() && n < size && i < size && key[i].Null? && k !in Map
      modifies `n, `Map, `blanks, key, val, hash
      ensures Valid() && n == old(n) + 1
      ensures Map == if k == "" then old(Map) else old(Map)[k := XStrdup(v)]
      ensures blanks == old(blanks) + if k == "" then 1 else 0
    {
      OccupiedUpdate(key[..], i, XStrdup(Str(k)));
      if k != "" {
        RepresentsInsert(key[..], val[..], hash[..], hashOf, Map, i, k, XStrdup(v));
        Map := Map[k := XStrdup(v)];
      } else {
        RepresentsHole(key[..], val[..], hash[..], hashOf, Map, i, XStrdup(v), hashOf(k));
        blanks := blanks + 1;
      }
      Store(i, XStrdup(Str(k)), XStrdup(v), hashOf(k));
      n := n + 1;
    }

    /** Writes one slot. */
    method Store(i: nat, k: CString, v: CString, h: bv32)
      requires Shape() && i < size
      modifies key, val, hash
      ensures key[..] == old(key[..])[i := k] && val[..] == old(val[..])[i := v] && hash[..] == old(hash[..])[i := h]
    {
      key[i] := k;
      val[i] := v;
      hash[i] := h;
    }

    /** dictionary_set. A NULL key is refused, any other key is set; of the empty key only the
        count tells. */
    method Set(k: CString, v: CString) returns (r: int)
      requires Valid()
      modifies this, key, val, hash
      ensures Valid() && r == if k.Null? then -1 else 0
      ensures Map == if IsEmpty(k) then old(Map) else old(Map)[k.s := XStrdup(v)]
      ensures blanks == old(blanks) + if k == Str("") then 1 else 0
      ensures key == old(key) || fresh(key)
      ensures val == old(val) || fresh(val)
      ensures hash == old(hash) || fresh(hash)
    {
      if k.Null? {
        return -1;
      }
      var i := size;
      if n > 0 {
        i := Find(k.s);
      } else {
        EmptyWhenZero();
      }
      if i < size {
        Change(i, v);
      } else {
        Add(k.s, v);
      }
      r := 0;
    }

    /** Replaces the value of a stored key. */
    method Change(i: nat, v: CString)
      requires Valid() && i < size && key[i].Str?
      modifies `Map, val
      ensures Valid() && key[i].s != "" && Map == old(Map)[key[i].s := XStrdup(v)] && blanks == old(blanks)
    {
      RepresentsChange(key[..], val[..], hash[..], hashOf, Map, i, XStrdup(v));
      ghost var val0 := val[..];
      assert key[..][i].s != "";
      val[i] := XStrdup(v);
      assert val[..] == val0[i := XStrdup(v)];
      Map := Map[key[i].s := XStrdup(v)];
    }

    /** n counts the entries, and the empty keys that were set. */
    lemma CountsEntries()
      requires Valid()
      ensures n == |Map| + blanks
    {
      forall k | k in Map ensures Str(k) in key[..] {
        var i :| 0 <= i < |key[..]| && key[..][i] == Str(k);
      }
      OccupiedIsSize(key[..], Map.Keys);
      assert |Map.Keys| == |Map|;
    }

    /** The count is 0 only for the empty map. */
    lemma EmptyWhenZero()
      requires Valid() && n <= 0
      ensures Map == map[]
    {
      CountsEntries();
    }

    /** dictionary_unset */
    method Unset(k: CString)
      requires Valid()
      modifies this, key, val, hash
      ensures Valid() && key == old(key) && val == old(val) && hash == old(hash)
      ensures Map == (if k.Str? then old(Map) - {k.s} else old(Map)) && blanks == old(blanks)
    {
      if k.Null? {
        return;
      }
      var i := Find(k.s);
      if i >= size {
        return;
      }
      RepresentsRemove(key[..], val[..], hash[..], hashOf, Map, i);
      OccupiedUpdate(key[..], i, Null);
      Store(i, Null, Null, 0);
      n := n - 1;
      Map := Map - {k.s};
    }
  }

  // ---------- whole runs ----------

  datatype Op = SetOp(k: CString, v: CString) | GetOp(key: string, def: CString) | UnsetOp(k: CString)

  /** What an operation makes of a map of optional values. */
  function Effect(m: map<string, CString>, op: Op): map<string, CString> {
    match op
    case SetOp(k, v) => if IsEmpty(k) then m else m[k.s := XStrdup(v)]
    case GetOp(_, _) => m
    case UnsetOp(k) => if k.Str? then m - {k.s} else m
  }

  /** What it returns, as far as the caller looks at it. */
  function Answer(m: map<string, CString>, op: Op): CString {
    if op.GetOp? then (if op.key in m then m[op.key] else op.def) else Null
  }

  function MapAfter(m: map<string, CString>, ops: seq<Op>): map<string, CString> {
    if ops == [] then m else Effect(MapAfter(m, ops[..|ops| - 1]), ops[|ops| - 1])
  }

  function Answers(m: map<string, CString>, ops: seq<Op>): seq<CString> {
    if ops == [] then []
    else
      var n := |ops| - 1;
      Answers(m, ops[..n]) + [Answer(MapAfter(m, ops[..n]), ops[n])]
  }

  predicate SetsEmptyKey(op: Op) {
    op.SetOp? && op.k == Str("")
  }

  function EmptyKeys(ops: seq<Op>): nat {
    if ops == [] then 0 else EmptyKeys(ops[..|ops| - 1]) + if SetsEmptyKey(ops[|ops| - 1]) then 1 else 0
  }

  method Perform(d: Dict, op: Op) returns (a: CString)
    requires d.Valid()
    modifies d, d.key, d.val, d.hash
    ensures d.Valid() && d.Map == Effect(old(d.Map), op) && a == Answer(old(d.Map), op)
    ensures d.blanks == old(d.blanks) + if SetsEmptyKey(op) then 1 else 0
    ensures d.key == old(d.key) || fresh(d.key)
    ensures d.val == old(d.val) || fresh(d.val)
    ensures d.hash == old(d.hash) || fresh(d.hash)
  {
    a := Null;
    match op
    case SetOp(k, v) => var _ := d.Set(k, v);
    case GetOp(key, def) => a := d.Get(key, def);
    case UnsetOp(k) => d.Unset(k);
  }

  /** Over every run of set, get and unset a dictionary agrees with the map. Its count is the
      map's size exactly as long as no empty key was set; each one adds 1 for good. */
  method Replay(d: Dict, ops: seq<Op>) returns (answers: seq<CString>)
    requires d.Valid()
    modifies d, d.key, d.val, d.hash
    ensures d.Valid() && d.Map == MapAfter(old(d.Map), ops) && answers == Answers(old(d.Map), ops)
    ensures d.n == |d.Map| + old(d.blanks) + EmptyKeys(ops)
  {
    answers := [];
    for i := 0 to |ops|
      invariant d.Valid() && d.Map == MapAfter(old(d.Map), ops[..i]) && answers == Answers(old(d.Map), ops[..i])
      invariant d.blanks == old(d.blanks) + EmptyKeys(ops[..i])
      invariant d.key == old(d.key) || fresh(d.key)
      invariant d.val == old(d.val) || fresh(d.val)
      invariant d.hash == old(d.hash) || fresh(d.hash)
    {
      assert ops[..i + 1][..i] == ops[..i];
      var a := Perform(d, ops[i]);
      answers := answers + [a];
    }
    assert ops[..|ops|] == ops;
    d.CountsEntries();
  }
}
