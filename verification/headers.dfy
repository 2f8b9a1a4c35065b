/**
  The header row: the union of the records' keys, each key once, in the order
  it is first met scanning records left to right and keys within a record in
  order (the insertion order of a JavaScript `Set`).
 */
module Headers {
  import opened Wrappers
  import opened JsValues
  import opened Errors

  predicate NoDuplicates(s: seq<string>) {
    forall p, q :: 0 <= p < q < |s| ==> s[p] != s[q]
  }

  /** Position of the first occurrence of `k` in `s`. */
  function FirstIndex(s: seq<string>, k: string): (i: nat)
    requires k in s
    ensures i < |s| && s[i] == k && k !in s[..i]
    decreases |s|
  {
    if s[0] == k then 0
    else
      var i := 1 + FirstIndex(s[1..], k);
      assert s[..i] == [s[0]] + s[1..][..i - 1];
      i
  }

  /**
    `r` lists every key of the stream `s` exactly once, ordered by where each
    key first occurs in `s`.
   */
  ghost predicate FirstSeenOrder(r: seq<string>, s: seq<string>) {
    && NoDuplicates(r)
    && (forall k :: k in r <==> k in s)
    && (forall p, q :: 0 <= p < q < |r| ==> FirstIndex(s, r[p]) < FirstIndex(s, r[q]))
  }

  /** `allKeys.add(key)`. */
  function AddKey(acc: seq<string>, key: string): seq<string> {
    if key in acc then acc else acc + [key]
  }

  /** `keys.forEach((key) => allKeys.add(key))`. */
  function AddKeys(acc: seq<string>, keys: seq<string>): (r: seq<string>)
    ensures acc <= r
    ensures NoDuplicates(acc) ==> NoDuplicates(r)
    ensures forall k :: k in r <==> k in acc || k in keys
    decreases |keys|
  {
    if |keys| == 0 then acc
    else AddKeys(AddKey(acc, keys[0]), keys[1..])
  }

  /** The keys of an element, or none when it is not a record. */
  function KeysOf(v: Value): seq<string> {
    if v.Obj? then Keys(v.fields) else []
  }

  /** Every key of every record, in scanning order, repetitions included. */
  function KeyStream(items: seq<Value>): seq<string>
    decreases |items|
  {
    if |items| == 0 then [] else KeysOf(items[0]) + KeyStream(items[1..])
  }

  /**
    The key-collection loop: each element must be a record (otherwise
    `InvalidDataType`, before any later element is looked at), and its keys are
    added to `acc`.
   */
  function Gather(items: seq<Value>, acc: seq<string>): (r: Result<seq<string>, ConvertError>)
    ensures r.Failure? <==> exists i :: 0 <= i < |items| && !IsRecord(items[i])
    ensures r.Failure? ==> r.error == InvalidDataType
    ensures r.Success? ==> acc <= r.value
    ensures r.Success? ==> forall k :: k in r.value <==> k in acc || k in KeyStream(items)
    decreases |items|
  {
    if |items| == 0 then Success(acc)
    else if !IsRecord(items[0]) then Failure(InvalidDataType)
    else
      var r := Gather(items[1..], AddKeys(acc, Keys(items[0].fields)));
      assert forall i :: 1 <= i < |items| ==> items[i] == items[1..][i - 1];
      r
  }

  /** The header list of `parse`, collected from an empty `Set`. */
  function CollectHeaders(items: seq<Value>): Result<seq<string>, ConvertError> {
    Gather(items, [])
  }

  lemma FirstIndexAppendLeft(s: seq<string>, t: seq<string>, k: string)
    requires k in s
    ensures k in s + t && FirstIndex(s + t, k) == FirstIndex(s, k)
  {
    var i := FirstIndex(s, k);
    assert (s + t)[..i] == s[..i];
    FirstIndexUnique(s + t, k, i);
  }

  lemma FirstIndexAppendRight(s: seq<string>, t: seq<string>, k: string)
    requires k !in s && k in t
    ensures k in s + t && FirstIndex(s + t, k) == |s| + FirstIndex(t, k)
  {
    var i := |s| + FirstIndex(t, k);
    assert (s + t)[i] == k;
    assert (s + t)[..i] == s + t[..FirstIndex(t, k)];
    FirstIndexUnique(s + t, k, i);
  }

  /** The first occurrence is the only position holding `k` with no `k` before it. */
  lemma FirstIndexUnique(s: seq<string>, k: string, i: nat)
    requires i < |s| && s[i] == k && k !in s[..i]
    ensures FirstIndex(s, k) == i
  {
  }

  /** Extending the stream does not move the first occurrence of a key already in it. */
  lemma FirstIndexExtend(seen: seq<string>, key: string)
    ensures forall k :: k in seen ==> FirstIndex(seen + [key], k) == FirstIndex(seen, k)
  {
    forall k | k in seen
      ensures FirstIndex(seen + [key], k) == FirstIndex(seen, k)
    {
      FirstIndexAppendLeft(seen, [key], k);
    }
  }

  /** A key already in the header leaves it unchanged and still in order. */
  lemma AddKnownKeyFirstSeen(acc: seq<string>, seen: seq<string>, key: string)
    requires FirstSeenOrder(acc, seen)
    requires key in acc
    ensures FirstSeenOrder(acc, seen + [key])
  {
    var s := seen + [key];
    FirstIndexExtend(seen, key);
    assert forall k :: k in s <==> k in seen;
    forall p, q | 0 <= p < q < |acc|
      ensures FirstIndex(s, acc[p]) < FirstIndex(s, acc[q])
    {
      assert acc[p] in seen && acc[q] in seen;
    }
  }

  /** A new key goes last, after every key first seen earlier. */
  lemma AddNewKeyFirstSeen(acc: seq<string>, seen: seq<string>, key: string)
    requires FirstSeenOrder(acc, seen)
    requires key !in acc
    ensures FirstSeenOrder(acc + [key], seen + [key])
  {
    var r := acc + [key];
    var s := seen + [key];
    FirstIndexExtend(seen, key);
    FirstIndexAppendRight(seen, [key], key);
    assert forall k :: k in r <==> k in acc || k == key;
    forall p, q | 0 <= p < q < |r|
      ensures FirstIndex(s, r[p]) < FirstIndex(s, r[q])
    {
      assert r[p] == acc[p] && acc[p] in seen;
      if q < |acc| {
        assert r[q] == acc[q] && acc[q] in seen;
      }
    }
  }

  /** Adding one key keeps the header in first-seen order of the extended stream. */
  lemma AddKeyFirstSeen(acc: seq<string>, seen: seq<string>, key: string)
    requires FirstSeenOrder(acc, seen)
    ensures FirstSeenOrder(AddKey(acc, key), seen + [key])
  {
    if key in acc {
      AddKnownKeyFirstSeen(acc, seen, key);
    } else {
      AddNewKeyFirstSeen(acc, seen, key);
    }
  }

  lemma AppendFirst(s: seq<string>, t: seq<string>)
    requires 0 < |t|
    ensures s + [t[0]] + t[1..] == s + t
  {
    assert t == [t[0]] + t[1..];
  }

  lemma AppendAssoc(s: seq<string>, t: seq<string>, u: seq<string>)
    ensures s + t + u == s + (t + u)
  {
  }

  /** Adding a record's keys keeps the header in first-seen order of the extended stream. */
  lemma {:induction false} AddKeysFirstSeen(acc: seq<string>, seen: seq<string>, keys: seq<string>)
    requires FirstSeenOrder(acc, seen)
    ensures FirstSeenOrder(AddKeys(acc, keys), seen + keys)
    decreases |keys|
  {
    if |keys| == 0 {
      assert seen + keys == seen;
    } else {
      var seen' := seen + [keys[0]];
      var acc' := AddKey(acc, keys[0]);
      AddKeyFirstSeen(acc, seen, keys[0]);
      AddKeysFirstSeen(acc', seen', keys[1..]);
      AppendFirst(seen, keys);
    }
  }

  lemma {:induction false} GatherFirstSeen(items: seq<Value>, acc: seq<string>, seen: seq<string>)
    requires FirstSeenOrder(acc, seen)
    requires Gather(items, acc).Success?
    ensures FirstSeenOrder(Gather(items, acc).value, seen + KeyStream(items))
    decreases |items|
  {
    if |items| == 0 {
      assert seen + KeyStream(items) == seen;
    } else {
      var ks := Keys(items[0].fields);
      AddKeysFirstSeen(acc, seen, ks);
      GatherFirstSeen(items[1..], AddKeys(acc, ks), seen + ks);
      AppendAssoc(seen, ks, KeyStream(items[1..]));
    }
  }

  /**
    The header invariant: on success the header holds every key of every
    record exactly once, in first-seen order, and it is empty only when no
    record has a key.
   */
  lemma HeaderIsOrderedUnion(items: seq<Value>)
    requires CollectHeaders(items).Success?
    ensures FirstSeenOrder(CollectHeaders(items).value, KeyStream(items))
    ensures |CollectHeaders(items).value| == 0 <==> |KeyStream(items)| == 0
  {
    var stream := KeyStream(items);
    EmptyFirstSeen();
    GatherFirstSeen(items, [], []);
    assert [] + stream == stream;
    EmptyHeaderIffNoKeys(CollectHeaders(items).value, stream);
  }

  /** Before any record is scanned the empty header is trivially in order. */
  lemma EmptyFirstSeen()
    ensures FirstSeenOrder([], [])
  {
  }

  /** A header in first-seen order of a stream is empty exactly when the stream is. */
  lemma EmptyHeaderIffNoKeys(h: seq<string>, stream: seq<string>)
    requires FirstSeenOrder(h, stream)
    ensures |h| == 0 <==> |stream| == 0
  {
    if 0 < |stream| {
      assert stream[0] in h;
    }
    if 0 < |h| {
      assert h[0] in stream;
    }
  }

  /** One element of the key-collection loop. */
  lemma GatherStep(items: seq<Value>, i: nat, acc: seq<string>)
    requires i < |items|
    ensures !IsRecord(items[i]) ==> Gather(items[i..], acc) == Failure(InvalidDataType)
    ensures IsRecord(items[i]) ==>
              Gather(items[i..], acc) == Gather(items[i + 1..], AddKeys(acc, Keys(items[i].fields)))
  {
    assert items[i..][0] == items[i];
    assert items[i..][1..] == items[i + 1..];
  }

  /** One key of the inner `forEach`. */
  lemma AddKeysStep(acc: seq<string>, keys: seq<string>, j: nat)
    requires j < |keys|
    ensures AddKeys(acc, keys[j..]) == AddKeys(AddKey(acc, keys[j]), keys[j + 1..])
  {
    assert keys[j..][0] == keys[j];
    assert keys[j..][1..] == keys[j + 1..];
  }

  /**
    The key-collection loop written as the source writes it: a `for … of` over
    the elements with a nested pass over each record's keys. It computes the
    same result as `CollectHeaders`.
   */
  method CollectHeadersLoop(items: seq<Value>) returns (r: Result<seq<string>, ConvertError>)
    ensures r == CollectHeaders(items)
  {
    var allKeys: seq<string> := [];
    var i := 0;
    while i < |items|
      invariant 0 <= i <= |items|
      invariant Gather(items[i..], allKeys) == CollectHeaders(items)
    {
      GatherStep(items, i, allKeys);
      if !IsRecord(items[i]) {
        return Failure(InvalidDataType);
      }
      var keys := Keys(items[i].fields);
      ghost var before := allKeys;
      var j := 0;
      while j < |keys|
        invariant 0 <= j <= |keys|
        invariant AddKeys(allKeys, keys[j..]) == AddKeys(before, keys)
      {
        AddKeysStep(allKeys, keys, j);
        allKeys := AddKey(allKeys, keys[j]);
        j := j + 1;
      }
      assert keys[j..] == [];
      i := i + 1;
    }
    assert items[i..] == [];
    return Success(allKeys);
  }
}
