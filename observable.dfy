/** ParkingLotAnnotTool/core/general/observable.py: a value, a list and a dict that
    send a `data_changed` notification after each change made through them. A
    notification is kept here as the record of what it reports rather than as its
    formatted text. */
module Observable {
  import opened Common

  /** The messages of `ObservableList`: "Set index {index} to {value}" and "Deleted
      item at index {index}", with the index as the caller gave it. */
  datatype ListMessage<T> = SetIndex(index: int, value: T) | DeletedIndex(index: int)

  /** The messages of `ObservableDict`: "Set key {key} to {value}" and "Deleted key
      {key}". */
  datatype DictMessage<K, V> = SetKey(key: K, value: V) | DeletedKey(key: K)

  /** The list after `xs[index] = value`, or None where Python raises IndexError. */
  function Assigned<T>(xs: seq<T>, index: int, value: T): (r: Option<seq<T>>)
    ensures r.Some? <==> PyIndex(index, |xs|).Some?
    ensures r.Some? ==> (|r.value| == |xs| &&
      forall i :: 0 <= i < |xs| ==> r.value[i] == (if i == PyIndex(index, |xs|).value then value else xs[i]))
  {
    match PyIndex(index, |xs|)
    case None => None
    case Some(k) => Some(xs[k := value])
  }

  /** The list after `del xs[index]`, or None where Python raises IndexError. */
  function Deleted<T>(xs: seq<T>, index: int): (r: Option<seq<T>>)
    ensures r.Some? <==> PyIndex(index, |xs|).Some?
    ensures r.Some? ==> r.value == RemoveAt(xs, PyIndex(index, |xs|).value)
  {
    match PyIndex(index, |xs|)
    case None => None
    case Some(k) => Some(RemoveAt(xs, k))
  }

  /** `xs[index]`, or None where Python raises IndexError. */
  function Item<T>(xs: seq<T>, index: int): (r: Option<T>)
    ensures r.Some? <==> -|xs| <= index < |xs|
    ensures r.Some? && index >= 0 ==> r.value == xs[index]
    ensures r.Some? && index < 0 ==> r.value == xs[|xs| + index]
  {
    match PyIndex(index, |xs|)
    case None => None
    case Some(k) => Some(xs[k])
  }

  /** Reading back an assigned position gives the value assigned, and every other
      position keeps its element. */
  lemma AssignedThenItem<T>(xs: seq<T>, index: int, value: T, other: int)
    requires Assigned(xs, index, value).Some?
    ensures Item(Assigned(xs, index, value).value, index) == Some(value)
    ensures PyIndex(other, |xs|).Some? && PyIndex(other, |xs|) != PyIndex(index, |xs|) ==>
      Item(Assigned(xs, index, value).value, other) == Item(xs, other)
  {
  }

  /** Deleting shifts every later element one place to the front. */
  lemma DeletedThenItem<T>(xs: seq<T>, index: int, j: nat)
    requires Deleted(xs, index).Some? && j < |xs| - 1
    ensures var k := PyIndex(index, |xs|).value;
      Item(Deleted(xs, index).value, j) == Some(if j < k then xs[j] else xs[j + 1])
  {
  }

  /** A value held by `ObservableValue`: a `str`, the only kind the `pyqtSignal(str)`
      of `Observable` can carry, or any other Python value. */
  datatype PyValue<T> = Str(text: string) | Other(other: T)

  class ObservableValue<T(==)> {
    var value: PyValue<T>
    /** The texts `data_changed` carried, oldest first. */
    var notifications: seq<string>

    constructor (initialValue: PyValue<T>)
      ensures value == initialValue && notifications == []
    {
      value := initialValue;
      notifications := [];
    }

    /** The `value` property's getter. */
    method Get() returns (v: PyValue<T>)
      ensures v == value
    {
      v := value;
    }

    /** The `value` setter: an equal value changes nothing and sends nothing; a
        different one is stored and then emitted. Emitting a value that is not a `str`
        raises TypeError (ok false) after the value was stored, and sends nothing. */
    method Set(newValue: PyValue<T>) returns (ok: bool)
      modifies this
      ensures value == newValue
      ensures ok <==> old(value) == newValue || newValue.Str?
      ensures notifications == old(notifications) +
        (if old(value) != newValue && newValue.Str? then [newValue.text] else [])
    {
      ok := true;
      if value != newValue {
        value := newValue;
        if !newValue.Str? {
          return false;
        }
        notifications := notifications + [newValue.text];
      }
    }
  }

  class ObservableList<T> {
    var items: seq<T>
    var notifications: seq<ListMessage<T>>

    /** `ObservableList(iterable)`: a copy of the elements, no notification. */
    constructor (init: seq<T>)
      ensures items == init && notifications == []
    {
      items := init;
      notifications := [];
    }

    /** `__setitem__`: one element replaced and one notification; where the index is
        out of range Python raises before notifying, and ok is false. */
    method SetItem(index: int, value: T) returns (ok: bool)
      modifies this
      ensures ok <==> Assigned(old(items), index, value).Some?
      ensures ok ==> items == Assigned(old(items), index, value).value && |items| == |old(items)|
      ensures ok ==> notifications == old(notifications) + [SetIndex(index, value)]
      ensures !ok ==> items == old(items) && notifications == old(notifications)
    {
      var k := PyIndex(index, |items|);
      if k.None? {
        return false;
      }
      items := items[k.value := value];
      notifications := notifications + [SetIndex(index, value)];
      ok := true;
    }

    /** `__getitem__`: None where Python raises IndexError; never notifies. */
    method GetItem(index: int) returns (r: Option<T>)
      ensures r.Some? <==> -|items| <= index < |items|
      ensures r == Item(items, index)
    {
      var k := PyIndex(index, |items|);
      if k.None? {
        return None;
      }
      r := Some(items[k.value]);
    }

    /** `__delitem__`: one element removed and one notification. */
    method DelItem(index: int) returns (ok: bool)
      modifies this
      ensures ok <==> Deleted(old(items), index).Some?
      ensures ok ==> items == Deleted(old(items), index).value && |items| == |old(items)| - 1
      ensures ok ==> notifications == old(notifications) + [DeletedIndex(index)]
      ensures !ok ==> items == old(items) && notifications == old(notifications)
    {
      var k := PyIndex(index, |items|);
      if k.None? {
        return false;
      }
      items := items[..k.value] + items[k.value + 1..];
      notifications := notifications + [DeletedIndex(index)];
      ok := true;
    }

    /** `__len__`: never notifies. */
    method Len() returns (n: nat)
      ensures n == |items|
    {
      n := |items|;
    }
  }

  class ObservableDict<K(==), V> {
    var entries: map<K, V>
    var notifications: seq<DictMessage<K, V>>

    /** `ObservableDict(mapping)`: a copy of the entries, no notification. */
    constructor (init: map<K, V>)
      ensures entries == init && notifications == []
    {
      entries := init;
      notifications := [];
    }

    /** `__setitem__`: the key inserted or overwritten and one notification. */
    method SetItem(key: K, value: V)
      modifies this
      ensures entries == old(entries)[key := value]
      ensures notifications == old(notifications) + [SetKey(key, value)]
    {
      entries := entries[key := value];
      notifications := notifications + [SetKey(key, value)];
    }

    /** `__getitem__`: None where Python raises KeyError; never notifies. */
    method GetItem(key: K) returns (r: Option<V>)
      ensures r.Some? <==> key in entries
      ensures r.Some? ==> r.value == entries[key]
    {
      if key !in entries {
        return None;
      }
      r := Some(entries[key]);
    }

    /** `__delitem__`: the key removed and one notification; for a missing key Python
        raises KeyError before notifying, and ok is false. */
    method DelItem(key: K) returns (ok: bool)
      modifies this
      ensures ok <==> key in old(entries)
      ensures entries == old(entries) - {key}
      ensures ok ==> notifications == old(notifications) + [DeletedKey(key)]
      ensures !ok ==> notifications == old(notifications)
    {
      if key !in entries {
        return false;
      }
      entries := entries - {key};
      notifications := notifications + [DeletedKey(key)];
      ok := true;
    }

    /** `__len__`: never notifies. */
    method Len() returns (n: nat)
      ensures n == |entries|
    {
      n := |entries|;
    }
  }
}
