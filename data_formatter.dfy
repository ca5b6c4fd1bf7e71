/** The front end's formatting helpers: phone numbers, arrays shown as text, and the deep
    clone and deep merge of plain objects. */
module DataFormatter {
  import opened Common
  import opened JsValues

  // ---------------------------------------------------------------------------
  // Phone numbers
  // ---------------------------------------------------------------------------

  const DefaultPhoneFormat: string := "xxx-xxxx-xxxx"
  const DefaultPhoneSeparator: string := "-"

  /** `s.replace(/\D/g, '')`: only the ASCII digits, in order. */
  function DigitsOnly(s: string): (r: string)
    ensures |r| <= |s|
    ensures forall k :: 0 <= k < |r| ==> IsDigit(r[k])
  {
    if s == [] then [] else (if IsDigit(s[0]) then [s[0]] else []) + DigitsOnly(s[1..])
  }

  lemma {:induction false} DigitsOnlyAppend(a: string, b: string)
    ensures DigitsOnly(a + b) == DigitsOnly(a) + DigitsOnly(b)
    decreases |a|
  {
    if a != [] {
      assert (a + b)[1..] == a[1..] + b;
      DigitsOnlyAppend(a[1..], b);
    } else {
      assert a + b == b;
    }
  }

  /** A string of digits is left as it is. */
  lemma {:induction false} DigitsOnlyOfDigits(s: string)
    requires forall k :: 0 <= k < |s| ==> IsDigit(s[k])
    ensures DigitsOnly(s) == s
    decreases |s|
  {
    if s != [] {
      DigitsOnlyOfDigits(s[1..]);
    }
  }

  /** formatPhoneNumber: a missing or empty number gives the empty string; with the default
      format the digits are grouped 3-4-4, and any other format returns the input unchanged. */
  function FormatPhoneNumber(phone: Option<string>, format: string, separator: string): (r: string)
    ensures phone.None? || phone.value == "" ==> r == ""
    ensures phone.Some? && phone.value != "" && format != DefaultPhoneFormat ==> r == phone.value
    ensures (phone.Some? && phone.value != "" && format == DefaultPhoneFormat
             && |DigitsOnly(phone.value)| <= 3) ==> r == DigitsOnly(phone.value)
  {
    if phone.None? || phone.value == "" then ""
    else
      var digits := DigitsOnly(phone.value);
      if format == DefaultPhoneFormat then
        if |digits| <= 3 then digits
        else if |digits| <= 7 then JsSlice(digits, 0, 3) + separator + JsSlice(digits, 3, |digits|)
        else JsSlice(digits, 0, 3) + separator + JsSlice(digits, 3, 7) + separator + JsSlice(digits, 7, 11)
      else phone.value
  }

  /** The number of separators the default format inserts for `n` digits. */
  function PhoneGroups(n: nat): nat
  {
    if n <= 3 then 0 else if n <= 7 then 1 else 2
  }

  /** With the default format and a separator without digits, reading the digits back out of
      the formatted number gives the first eleven digits of the input: nothing is reordered,
      and only digits past the eleventh are dropped. */
  lemma PhoneKeepsFirstElevenDigits(phone: string, separator: string)
    requires phone != ""
    requires DigitsOnly(separator) == ""
    ensures var digits := DigitsOnly(phone);
      DigitsOnly(FormatPhoneNumber(Some(phone), DefaultPhoneFormat, separator))
        == digits[..Min(|digits|, 11)]
  {
    var d := DigitsOnly(phone);
    if |d| <= 3 {
      DigitsOnlyOfDigits(d);
    } else if |d| <= 7 {
      assert FormatPhoneNumber(Some(phone), DefaultPhoneFormat, separator) == d[..3] + separator + d[3..];
      TwoGroupDigits(d, separator);
    } else {
      var m := Min(|d|, 11);
      assert FormatPhoneNumber(Some(phone), DefaultPhoneFormat, separator)
        == d[..3] + separator + d[3..7] + separator + d[7..m];
      ThreeGroupDigits(d, separator, m);
    }
  }

  lemma TwoGroupDigits(d: string, separator: string)
    requires 3 < |d| && forall k :: 0 <= k < |d| ==> IsDigit(d[k])
    requires DigitsOnly(separator) == ""
    ensures DigitsOnly(d[..3] + separator + d[3..]) == d
  {
    DigitsOnlyAppend(d[..3] + separator, d[3..]);
    DigitsOnlyAppend(d[..3], separator);
    DigitsOnlyOfDigits(d[..3]);
    DigitsOnlyOfDigits(d[3..]);
    assert d[..3] + d[3..] == d;
  }

  lemma ThreeGroupDigits(d: string, separator: string, m: nat)
    requires 7 <= m <= |d| && forall k :: 0 <= k < |d| ==> IsDigit(d[k])
    requires DigitsOnly(separator) == ""
    ensures DigitsOnly(d[..3] + separator + d[3..7] + separator + d[7..m]) == d[..m]
  {
    DigitsOnlyAppend(d[..3] + separator + d[3..7] + separator, d[7..m]);
    DigitsOnlyAppend(d[..3] + separator + d[3..7], separator);
    DigitsOnlyAppend(d[..3] + separator, d[3..7]);
    DigitsOnlyAppend(d[..3], separator);
    DigitsOnlyOfDigits(d[..3]);
    DigitsOnlyOfDigits(d[3..7]);
    DigitsOnlyOfDigits(d[7..m]);
    assert d[..3] + d[3..7] + d[7..m] == d[..m];
  }

  /** With the default format, the formatted number is the kept digits plus one separator
      per group boundary. */
  lemma PhoneLength(phone: string, separator: string)
    requires phone != ""
    ensures var digits := DigitsOnly(phone);
      |FormatPhoneNumber(Some(phone), DefaultPhoneFormat, separator)|
        == Min(|digits|, 11) + PhoneGroups(|digits|) * |separator|
  {
  }

  // ---------------------------------------------------------------------------
  // Arrays as text
  // ---------------------------------------------------------------------------

  const DefaultArraySeparator: string := ", "
  const DefaultMaxItems: int := 10
  const DefaultEllipsis: string := "..."

  /** What formatArray is given: something that is not an array (shown as `String(value)`),
      or the items of an array, each already converted to text as `join` does. */
  datatype ArrayInput = NotAnArray(text: string) | Items(items: seq<string>)

  /** The total shown after the ellipsis: " (共<n>项)". */
  function CountNote(n: nat): string
  {
    " (共" + NatToString(n) + "项)"
  }

  /** formatArray: an empty array gives "", an array of at most `maxItems` items is joined,
      and a longer one shows its first `maxItems` items, the ellipsis and the total. */
  function FormatArray(input: ArrayInput, separator: string, maxItems: int, ellipsis: string): (r: string)
    ensures input.NotAnArray? ==> r == input.text
    ensures input.Items? && input.items == [] ==> r == ""
    ensures input.Items? && |input.items| <= maxItems ==> r == Join(input.items, separator)
    ensures input.Items? && 0 <= maxItems < |input.items| ==>
      r == Join(input.items[..maxItems], separator) + separator + ellipsis + CountNote(|input.items|)
  {
    match input
    case NotAnArray(text) => text
    case Items(items) =>
      if |items| == 0 then ""
      else if |items| <= maxItems then Join(items, separator)
      else Join(JsSlice(items, 0, maxItems), separator) + separator + ellipsis + CountNote(|items|)
  }

  lemma {:induction false} JoinAppend(parts: seq<string>, sep: string, last: string)
    requires parts != []
    ensures Join(parts + [last], sep) == Join(parts, sep) + sep + last
    decreases |parts|
  {
    if |parts| == 1 {
      assert parts + [last] == [parts[0], last];
      assert [parts[0], last][1..] == [last];
    } else {
      assert (parts + [last])[1..] == parts[1..] + [last];
      JoinAppend(parts[1..], sep, last);
    }
  }

  /** A short array joined with a one-character separator that no item contains splits back
      into the same items. */
  lemma ShortArraySplitsBack(items: seq<string>, sep: char, maxItems: int, ellipsis: string)
    requires 1 <= |items| <= maxItems
    requires forall k :: 0 <= k < |items| ==> sep !in items[k]
    ensures SplitOn(FormatArray(Items(items), [sep], maxItems, ellipsis), sep) == items
  {
    SplitOnJoin(items, sep);
  }

  /** A long array with a one-character separator that neither the items nor the ellipsis
      contain splits into exactly the first `maxItems` items followed by one piece holding
      the ellipsis and the total count. */
  lemma LongArrayShowsFirstItems(items: seq<string>, sep: char, maxItems: int, ellipsis: string)
    requires 1 <= maxItems < |items|
    requires forall k :: 0 <= k < |items| ==> sep !in items[k]
    requires sep !in ellipsis && sep !in CountNote(|items|)
    ensures SplitOn(FormatArray(Items(items), [sep], maxItems, ellipsis), sep)
      == items[..maxItems] + [ellipsis + CountNote(|items|)]
  {
    var shown := items[..maxItems];
    var tail := ellipsis + CountNote(|items|);
    JoinAppend(shown, [sep], tail);
    assert Join(shown, [sep]) + [sep] + ellipsis + CountNote(|items|) == Join(shown, [sep]) + [sep] + tail;
    assert sep !in tail;
    SplitOnJoin(shown + [tail], sep);
  }

  // ---------------------------------------------------------------------------
  // Deep clone
  // ---------------------------------------------------------------------------

  /** deepClone: primitives and null are returned as they are, arrays are copied item by item
      and plain objects key by key, each nested value cloned in turn. */
  method DeepClone(v: Value) returns (r: Value)
    ensures r == v
    decreases v
  {
    match v
    case Arr(items) =>
      var copied: seq<Value> := [];
      for i := 0 to |items|
        invariant copied == items[..i]
      {
        var item := DeepClone(items[i]);
        copied := copied + [item];
      }
      assert items[..|items|] == items;
      r := Arr(copied);
    case Obj(fields) =>
      var cloned: map<string, Value> := map[];
      var pending := fields.Keys;
      while pending != {}
        invariant pending <= fields.Keys
        invariant cloned.Keys == fields.Keys - pending
        invariant forall k :: k in cloned ==> cloned[k] == fields[k]
        decreases pending
      {
        var key :| key in pending;
        var value := DeepClone(fields[key]);
        cloned := cloned[key := value];
        pending := pending - {key};
      }
      r := Obj(cloned);
    case _ =>
      r := v;
  }

  // ---------------------------------------------------------------------------
  // Deep merge
  // ---------------------------------------------------------------------------

  /** `result[key] || {}`: where a nested merge starts. */
  function NestedStart(acc: map<string, Value>, key: string): Value
  {
    if key in acc && Truthy(acc[key]) then acc[key] else Obj(map[])
  }

  /** deepMerge of a single argument: its own entries, with every nested plain object rebuilt
      the same way; everything else, arrays included, is taken as it is. */
  function Copy(v: Value): (r: map<string, Value>)
    ensures r.Keys == OwnEntries(v).Keys
    decreases v
  {
    var e := OwnEntries(v);
    map k | k in e :: if e[k].Obj? then Obj(Copy(e[k])) else e[k]
  }

  /** One argument of deepMerge folded into the result so far: its keys are added, a nested
      plain object is merged into what the key held, and any other value (an array included)
      replaces it. Arguments that are not objects have no own entries and change nothing. */
  function MergeInto(acc: map<string, Value>, src: Value): (r: map<string, Value>)
    ensures r.Keys == acc.Keys + OwnEntries(src).Keys
    ensures forall k :: k in acc && k !in OwnEntries(src) ==> r[k] == acc[k]
    ensures forall k :: k in OwnEntries(src) && !OwnEntries(src)[k].Obj? ==> r[k] == OwnEntries(src)[k]
    ensures forall k :: k in OwnEntries(src) && OwnEntries(src)[k].Obj? ==> r[k].Obj?
    decreases src
  {
    var e := OwnEntries(src);
    map k | k in acc.Keys + e.Keys ::
      if k !in e then acc[k]
      else if e[k].Obj? then Obj(MergeInto(Copy(NestedStart(acc, k)), e[k]))
      else e[k]
  }

  /** deepMerge(...objects): the arguments folded from left to right into an empty object. */
  function Merged(objects: seq<Value>): map<string, Value>
  {
    if objects == [] then map[] else MergeInto(Merged(objects[..|objects| - 1]), objects[|objects| - 1])
  }

  /** Merging into nothing is the single-argument copy. */
  lemma {:induction false} MergeIntoEmpty(v: Value)
    ensures MergeInto(map[], v) == Copy(v)
    decreases v, 1
  {
    var merged := MergeInto(map[], v);
    var copied := Copy(v);
    assert merged.Keys == copied.Keys;
    forall k | k in merged
      ensures merged[k] == copied[k]
    {
      MergeIntoEmptyAt(v, k);
    }
    SameMap(merged, copied);
  }

  /** Two maps with the same keys and the same value under each key are equal. */
  lemma SameMap(a: map<string, Value>, b: map<string, Value>)
    requires a.Keys == b.Keys
    requires forall k :: k in a ==> a[k] == b[k]
    ensures a == b
  {
  }

  lemma {:induction false} MergeIntoEmptyAt(v: Value, k: string)
    requires k in OwnEntries(v)
    ensures MergeInto(map[], v)[k] == Copy(v)[k]
    decreases v, 0
  {
    var e := OwnEntries(v);
    if e[k].Obj? {
      var empty: map<string, Value> := map[];
      assert NestedStart(map[], k) == Obj(empty);
      assert Copy(Obj(empty)) == empty;
      MergeIntoEmpty(e[k]);
    }
  }

  /** Copying a plain object gives back its fields. */
  lemma {:induction false} CopyOfObject(m: map<string, Value>)
    ensures Copy(Obj(m)) == m
    decreases Obj(m)
  {
    forall k | k in m && m[k].Obj?
      ensures Copy(Obj(m))[k] == m[k]
    {
      assert Obj(m[k].fields) == m[k];
      CopyOfObject(m[k].fields);
    }
  }

  /** A value that is falsy or not an object is skipped. */
  lemma SkipsNonObjects(acc: map<string, Value>, v: Value)
    requires !Truthy(v) || !IsObjectType(v)
    ensures MergeInto(acc, v) == acc
  {
  }

  /** deepMerge of one plain object is a copy of it. */
  lemma MergeOne(m: map<string, Value>)
    ensures Merged([Obj(m)]) == m
  {
    MergeIntoEmpty(Obj(m));
    CopyOfObject(m);
  }

  /** Merging a plain object into itself changes nothing. */
  lemma {:induction false} MergeIntoSelf(m: map<string, Value>)
    ensures MergeInto(m, Obj(m)) == m
    decreases Obj(m)
  {
    forall k | k in m && m[k].Obj?
      ensures MergeInto(m, Obj(m))[k] == m[k]
    {
      var n := m[k].fields;
      assert Obj(n) == m[k];
      assert NestedStart(m, k) == m[k];
      CopyOfObject(n);
      MergeIntoSelf(n);
    }
  }

  /** deepMerge(x, x) of a plain object is x. */
  lemma MergeIdempotent(m: map<string, Value>)
    ensures Merged([Obj(m), Obj(m)]) == m
  {
    assert [Obj(m), Obj(m)][..1] == [Obj(m)];
    MergeOne(m);
    MergeIntoSelf(m);
  }

  /** When the result so far and the new argument both hold a plain object under a key, the
      merged value has the keys of both. */
  lemma NestedObjectsMerge(acc: map<string, Value>, src: Value, key: string)
    requires key in acc && acc[key].Obj?
    requires key in OwnEntries(src) && OwnEntries(src)[key].Obj?
    ensures MergeInto(acc, src)[key].Obj?
    ensures MergeInto(acc, src)[key].fields.Keys
      == acc[key].fields.Keys + OwnEntries(src)[key].fields.Keys
  {
    assert NestedStart(acc, key) == acc[key];
    assert Obj(acc[key].fields) == acc[key];
    CopyOfObject(acc[key].fields);
  }

  /** The merged object has exactly the keys of its arguments. */
  lemma {:induction false} MergedKeys(objects: seq<Value>, key: string)
    ensures key in Merged(objects) <==> exists i :: 0 <= i < |objects| && key in OwnEntries(objects[i])
    decreases |objects|
  {
    if objects != [] {
      var n := |objects| - 1;
      var init := objects[..n];
      MergedKeys(init, key);
      assert Merged(objects) == MergeInto(Merged(init), objects[n]);
      if key in Merged(objects) {
        if key !in OwnEntries(objects[n]) {
          var i :| 0 <= i < n && key in OwnEntries(init[i]);
          assert init[i] == objects[i];
        }
      } else {
        assert key !in Merged(init) && key !in OwnEntries(objects[n]);
        forall i | 0 <= i < |objects|
          ensures key !in OwnEntries(objects[i])
        {
          if i < n {
            assert init[i] == objects[i];
          }
        }
      }
    }
  }

  /** deepMerge: each argument that is a truthy object has its own keys copied into the
      result in turn; a nested plain object is merged into what the key held, everything else
      overwrites it. */
  method DeepMerge(objects: seq<Value>) returns (result: map<string, Value>)
    ensures result == Merged(objects)
  {
    result := map[];
    for i := 0 to |objects|
      invariant result == Merged(objects[..i])
    {
      var obj := objects[i];
      assert objects[..i + 1][..i] == objects[..i];
      if !Truthy(obj) || !IsObjectType(obj) {
        SkipsNonObjects(result, obj);
        continue;
      }
      result := CopyKeys(result, obj);
    }
    assert objects[..|objects|] == objects;
  }

  /** What the source writes under `key` when the argument holds `value` there: a nested merge
      of `result[key] || {}` with a plain object, otherwise the value itself. */
  function Written(acc: map<string, Value>, key: string, value: Value): Value
  {
    if value.Obj? then Obj(Merged([NestedStart(acc, key), value])) else value
  }

  /** What one key of the merged result holds, in the terms of the source's recursive call. */
  lemma MergedSlot(acc: map<string, Value>, src: Value, key: string)
    requires key in OwnEntries(src)
    ensures MergeInto(acc, src)[key] == Written(acc, key, OwnEntries(src)[key])
  {
    var value := OwnEntries(src)[key];
    if value.Obj? {
      MergedPair(NestedStart(acc, key), value);
    }
  }

  /** deepMerge(a, b): b merged into the copy of a. */
  lemma MergedPair(a: Value, b: Value)
    ensures Merged([a, b]) == MergeInto(Copy(a), b)
  {
    assert [a, b][..1] == [a];
    assert [a][..0] == [];
    assert Merged([a]) == MergeInto(map[], a);
    MergeIntoEmpty(a);
  }

  /** A map that agrees with the merge key by key is the merge. */
  lemma MergedBySlots(acc: map<string, Value>, src: Value, result: map<string, Value>)
    requires result.Keys == acc.Keys + OwnEntries(src).Keys
    requires forall k :: k in result && k !in OwnEntries(src) ==> result[k] == acc[k]
    requires forall k :: k in OwnEntries(src) ==> result[k] == Written(acc, k, OwnEntries(src)[k])
    ensures result == MergeInto(acc, src)
  {
    forall k | k in OwnEntries(src)
      ensures result[k] == MergeInto(acc, src)[k]
    {
      MergedSlot(acc, src, k);
    }
  }

  /** The inner loop of deepMerge: every own key of `obj` written into the result. */
  method CopyKeys(before: map<string, Value>, obj: Value) returns (result: map<string, Value>)
    ensures result == MergeInto(before, obj)
  {
    result := WriteEntries(before, OwnEntries(obj));
    MergedBySlots(before, obj, result);
  }

  /** `for (const key in obj) result[key] = ...`, one key at a time. */
  method WriteEntries(before: map<string, Value>, entries: map<string, Value>)
    returns (result: map<string, Value>)
    ensures result.Keys == before.Keys + entries.Keys
    ensures forall k :: k in result && k !in entries ==> result[k] == before[k]
    ensures forall k :: k in entries ==> result[k] == Written(before, k, entries[k])
  {
    result := before;
    var pending := entries.Keys;
    ghost var done: set<string> := {};
    while pending != {}
      invariant pending + done == entries.Keys && pending !! done
      invariant result.Keys == before.Keys + done
      invariant forall k :: k in result && k !in done ==> result[k] == before[k]
      invariant forall k :: k in done ==> result[k] == Written(before, k, entries[k])
      decreases pending
    {
      var key :| key in pending;
      assert NestedStart(result, key) == NestedStart(before, key);
      result := result[key := Written(result, key, entries[key])];
      pending := pending - {key};
      done := done + {key};
    }
  }
}
