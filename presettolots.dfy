/** tools/preset_to_lotsdata.py: turns a camera-preset file into one lots file per
    camera, taking the lots of each camera's first preset. */
module PresetToLotsData {
  import opened Common
  import opened LotsData

  /** A loaded JSON value. */
  datatype Json = JNull | JBool(b: bool) | JNum(n: real) | JStr(s: string)
                | JArr(items: seq<Json>) | JObj(fields: map<string, Json>)

  /** `data[key]` with a string key: the member of an object, or None where Python
      raises (KeyError for a missing member, TypeError for any other value). */
  function Get(data: Json, key: string): (r: Option<Json>)
    ensures r.Some? <==> data.JObj? && key in data.fields
    ensures r.Some? ==> r.value == data.fields[key]
  {
    if data.JObj? && key in data.fields then Some(data.fields[key]) else None
  }

  /** What `for x in data` walks over, or None where Python raises. Iterating a
      non-empty object or string yields strings, which every use below indexes with a
      string key and so fails on; that is folded in here. */
  function Elements(data: Json): (r: Option<seq<Json>>)
    ensures data.JArr? ==> r == Some(data.items)
  {
    match data
    case JArr(items) => Some(items)
    case JObj(m) => if |m| == 0 then Some([]) else None
    case JStr(s) => if |s| == 0 then Some([]) else None
    case _ => None
  }

  /** The value `get_nested_value(data, keys)` returns, or None where it raises. */
  function NestedValue(data: Json, keys: seq<string>): (r: Option<Json>)
    ensures |keys| == 0 ==> r == Some(data)
    ensures |keys| > 0 && Get(data, keys[0]).None? ==> r.None?
    decreases |keys|
  {
    if |keys| == 0 then Some(data)
    else
      match Get(data, keys[0])
      case None => None
      case Some(d) => NestedValue(d, keys[1..])
  }

  /** `get_nested_value`: the loop that rebinds `data` key by key. */
  method GetNestedValue(data: Json, keys: seq<string>) returns (r: Option<Json>)
    ensures r == NestedValue(data, keys)
  {
    var cur := data;
    for i := 0 to |keys|
      invariant NestedValue(data, keys) == NestedValue(cur, keys[i..])
    {
      var next := Get(cur, keys[i]);
      if next.None? {
        return None;
      }
      cur := next.value;
    }
    return Some(cur);
  }

  /** Looking up k1 and then k2 is looking up k1 ++ k2; a failure on the way stays one. */
  lemma {:induction false} NestedValueAppend(data: Json, k1: seq<string>, k2: seq<string>)
    ensures NestedValue(data, k1 + k2) ==
      match NestedValue(data, k1)
      case None => None
      case Some(d) => NestedValue(d, k2)
    decreases |k1|
  {
    if |k1| == 0 {
      assert k1 + k2 == k2;
    } else {
      assert (k1 + k2)[0] == k1[0] && (k1 + k2)[1..] == k1[1..] + k2;
      match Get(data, k1[0])
      case None =>
      case Some(d) => NestedValueAppend(d, k1[1..], k2);
    }
  }

  /** The record `add_lot` receives for one entry of `lots`, or None when reading it
      fails: a missing `quad` or `id`, a quad of fewer than 8 values, or a value the
      lots file model cannot hold (an id that is not a string, a coordinate that is
      not a number). */
  function LotOf(lot: Json): (r: Option<Lot>)
    ensures r.Some? ==> (Get(lot, "quad").Some? && Get(lot, "quad").value.JArr? &&
      var q := Get(lot, "quad").value.items;
      |q| >= 8 && Get(lot, "id") == Some(JStr(r.value.id)) &&
      forall i :: 0 <= i < 8 ==> q[i] == JNum(r.value.quad[i]))
  {
    var quad := Get(lot, "quad");
    var id := Get(lot, "id");
    if quad.None? || !quad.value.JArr? || |quad.value.items| < 8 then None
    else if id.None? || !id.value.JStr? then None
    else
      var q := quad.value.items;
      if forall i :: 0 <= i < 8 ==> q[i].JNum? then
        Some(Lot(id.value.s, [q[0].n, q[1].n, q[2].n, q[3].n, q[4].n, q[5].n, q[6].n, q[7].n]))
      else None
  }

  /** The lots of a camera: `camera["presets"][0]["config_preset"]["lots"]`. */
  function CameraLots(camera: Json): Option<seq<Json>>
  {
    var presets := Get(camera, "presets");
    if presets.None? || !presets.value.JArr? || |presets.value.items| == 0 then None
    else
      match NestedValue(presets.value.items[0], ["config_preset", "lots"])
      case None => None
      case Some(lots) => Elements(lots)
  }

  /** All entries converted, or None at the first that fails. */
  function LotsOf(entries: seq<Json>): (r: Option<seq<Lot>>)
    ensures r.Some? <==> forall i :: 0 <= i < |entries| ==> LotOf(entries[i]).Some?
    ensures r.Some? ==> (|r.value| == |entries| &&
      forall i :: 0 <= i < |entries| ==> r.value[i] == LotOf(entries[i]).value)
  {
    if |entries| == 0 then Some([])
    else
      match (LotOf(entries[0]), LotsOf(entries[1..]))
      case (Some(l), Some(rest)) => Some([l] + rest)
      case _ => None
  }

  // ---------------------------------------------------------------------------
  // The output file name: `(output_dir / name).with_suffix(".json")`

  /** `s.rfind(c)`: the last index of c in s, or -1. */
  function RFind(s: string, c: char): (r: int)
    ensures -1 <= r < |s|
    ensures r >= 0 ==> s[r] == c
  {
    if |s| == 0 then -1
    else if s[|s| - 1] == c then |s| - 1
    else RFind(s[..|s| - 1], c)
  }

  /** pathlib's `suffix` of a final path component: from its last '.', unless that
      dot is the first or the last character. */
  function Suffix(n: string): (r: string)
    ensures r == "" || (r[0] == '.' && 1 < |r| < |n|)
  {
    var i := RFind(n, '.');
    if 0 < i < |n| - 1 then n[i..] else ""
  }

  /** pathlib's `with_suffix(suffix)` on a final path component. */
  function WithSuffix(n: string, suffix: string): string
  {
    n[..|n| - |Suffix(n)|] + suffix
  }

  /** The file a camera's lots are saved to, relative to `output_dir`: the camera name
      with its final component's suffix replaced by ".json" (or ".json" appended). */
  function OutputFile(name: string): (r: string)
  {
    var sep := RFind(name, '/');
    name[..sep + 1] + WithSuffix(name[sep + 1..], ".json")
  }

  /** A final component without a '.' has no suffix, so ".json" is appended. */
  lemma WithSuffixAppends(n: string, suffix: string)
    requires forall k :: 0 <= k < |n| ==> n[k] != '.'
    ensures WithSuffix(n, suffix) == n + suffix
  {
    assert Suffix(n) == "";
    assert n[..|n|] == n;
  }

  /** A name without a '.' gets ".json" appended. */
  lemma OutputFileAppends(name: string)
    requires forall k :: 0 <= k < |name| ==> name[k] != '.'
    ensures OutputFile(name) == name + ".json"
  {
    var sep := RFind(name, '/');
    var n := name[sep + 1..];
    WithSuffixAppends(n, ".json");
    assert name[..sep + 1] + n == name;
  }

  /** A suffix in the camera name is replaced, so "a.1" and "a.2" are both saved to
      "a.json": the second camera's file overwrites the first. */
  lemma OutputFilesCollide()
    ensures OutputFile("a.1") == OutputFile("a.2") == "a.json"
  {
    assert RFind("a.1", '/') == -1 && RFind("a.2", '/') == -1;
    assert RFind("a.1", '.') == 1 && RFind("a.2", '.') == 1;
  }

  /** The files in `output_dir` after the files of `written` were saved in order: a
      later file saved under the same name replaces an earlier one. */
  function Disk(written: seq<(string, LotsDocument)>): (d: map<string, LotsDocument>)
    ensures forall f :: f in d <==> exists i :: 0 <= i < |written| && written[i].0 == f
    ensures |written| > 0 ==> d[written[|written| - 1].0] == written[|written| - 1].1
  {
    if |written| == 0 then map[]
    else
      var last := written[|written| - 1];
      var d := Disk(written[..|written| - 1]);
      assert forall i :: 0 <= i < |written| - 1 ==> written[..|written| - 1][i] == written[i];
      d[last.0 := last.1]
  }

  /** Each file holds what the last save under its name wrote. */
  lemma {:induction false} DiskLastWins(written: seq<(string, LotsDocument)>, k: nat)
    requires k < |written|
    requires forall m :: k < m < |written| ==> written[m].0 != written[k].0
    ensures Disk(written)[written[k].0] == written[k].1
    decreases |written|
  {
    if k < |written| - 1 {
      var prefix := written[..|written| - 1];
      assert prefix[k] == written[k];
      assert forall m :: k < m < |prefix| ==> prefix[m] == written[m];
      DiskLastWins(prefix, k);
    }
  }

  /** One camera: the file its lots are saved to and their contents, or None if it
      raises. */
  function CameraFile(camera: Json): Option<(string, LotsDocument)>
  {
    var name := Get(camera, "name");
    if name.None? || !name.value.JStr? then None
    else
      match CameraLots(camera)
      case None => None
      case Some(entries) =>
        match LotsOf(entries)
        case None => None
        case Some(lots) => Some((OutputFile(name.value.s), LotsDocument("0.1", None, lots)))
  }

  /** The values of s[i..] up to the first None (false), or all of them (true): the
      files a loop writes when each turn either writes one or raises. */
  function UntilNone<T>(s: seq<Option<T>>, i: nat): (r: (bool, seq<T>))
    requires i <= |s|
    decreases |s| - i
  {
    if i == |s| then (true, [])
    else
      match s[i]
      case None => (false, [])
      case Some(f) =>
        var rest := UntilNone(s, i + 1);
        (rest.0, [f] + rest.1)
  }

  /** The values come from s in order, one each, and stop exactly at the first None. */
  lemma {:induction false} UntilNoneMeaning<T>(s: seq<Option<T>>, i: nat)
    requires i <= |s|
    ensures var r := UntilNone(s, i);
      |r.1| <= |s| - i &&
      (forall j :: 0 <= j < |r.1| ==> s[i + j] == Some(r.1[j])) &&
      (r.0 <==> |r.1| == |s| - i) &&
      (!r.0 ==> s[i + |r.1|].None?)
    decreases |s| - i
  {
    if i < |s| && s[i].Some? {
      UntilNoneMeaning(s, i + 1);
      var rest := UntilNone(s, i + 1);
      var r := UntilNone(s, i);
      assert r.1 == [s[i].value] + rest.1;
      forall j | 0 <= j < |r.1| ensures s[i + j] == Some(r.1[j]) {
        if j > 0 {
          assert r.1[j] == rest.1[j - 1];
          assert s[i + j] == s[(i + 1) + (j - 1)];
        }
      }
    }
  }

  /** One turn of a loop collecting s[i..] up to the first None, after `written`. */
  lemma UntilNoneStep<T>(s: seq<Option<T>>, i: nat, written: seq<T>)
    requires i <= |s|
    ensures i == |s| ==> UntilNone(s, i) == (true, []) && written + [] == written
    ensures i < |s| && s[i].None? ==> UntilNone(s, i) == (false, []) && written + [] == written
    ensures i < |s| && s[i].Some? ==>
      var rest := UntilNone(s, i + 1);
      UntilNone(s, i) == (rest.0, [s[i].value] + rest.1) &&
      written + ([s[i].value] + rest.1) == (written + [s[i].value]) + rest.1
  {
  }

  function CameraFiles(cameras: seq<Json>): (r: seq<Option<(string, LotsDocument)>>)
    ensures |r| == |cameras| && forall i :: 0 <= i < |cameras| ==> r[i] == CameraFile(cameras[i])
  {
    seq(|cameras|, i requires 0 <= i < |cameras| => CameraFile(cameras[i]))
  }

  /** What `main` writes for a whole preset file: the files of the cameras in order, up
      to the first camera that raises (false), or for all of them (true). */
  function Converted(data: Json): (bool, seq<(string, LotsDocument)>)
  {
    match Get(data, "cameras")
    case None => (false, [])
    case Some(cs) =>
      match Elements(cs)
      case None => (false, [])
      case Some(cameras) => UntilNone(CameraFiles(cameras), 0)
  }

  /** `main`: for each camera a fresh LotsData gets every lot of the first preset by
      `add_lot` and is saved; ok is false where Python raises, and `written` lists the
      files saved before that. */
  method Convert(data: Json) returns (ok: bool, written: seq<(string, LotsDocument)>)
    ensures (ok, written) == Converted(data)
  {
    var cs := Get(data, "cameras");
    if cs.None? || Elements(cs.value).None? {
      return false, [];
    }
    ok, written := ConvertCameras(Elements(cs.value).value);
  }

  /** The camera loop of `main`. */
  method ConvertCameras(cameras: seq<Json>) returns (ok: bool, written: seq<(string, LotsDocument)>)
    ensures (ok, written) == UntilNone(CameraFiles(cameras), 0)
  {
    written := [];
    ghost var files := CameraFiles(cameras);
    assert written + UntilNone(files, 0).1 == UntilNone(files, 0).1;
    for c := 0 to |cameras|
      invariant UntilNone(files, 0) == (UntilNone(files, c).0, written + UntilNone(files, c).1)
    {
      var file := ConvertCamera(cameras[c]);
      UntilNoneStep(files, c, written);
      if file.None? {
        return false, written;
      }
      written := written + [file.value];
    }
    UntilNoneStep(files, |cameras|, written);
    return true, written;
  }

  /** One turn of the camera loop of `main`. */
  method ConvertCamera(camera: Json) returns (file: Option<(string, LotsDocument)>)
    ensures file == CameraFile(camera)
  {
    var name := Get(camera, "name");
    if name.None? || !name.value.JStr? {
      return None;
    }
    var outputFile := OutputFile(name.value.s);
    var doc := SaveLots(outputFile, camera);
    if doc.None? {
      return None;
    }
    return Some((outputFile, doc.value));
  }

  /** The body of that turn after the name: a fresh LotsData saved to `outputFile`, with
      every lot of the first preset added by `add_lot`; None where Python raises. */
  method SaveLots(outputFile: string, camera: Json) returns (doc: Option<LotsDocument>)
    ensures doc.Some? <==> CameraLots(camera).Some? && LotsOf(CameraLots(camera).value).Some?
    ensures doc.Some? ==> doc.value == LotsDocument("0.1", None, LotsOf(CameraLots(camera).value).value)
  {
    var store := new LotStore();
    store.SetJsonPath(Some(outputFile));
    var entries := CameraLots(camera);
    if entries.None? {
      return None;
    }
    for i := 0 to |entries.value|
      invariant forall j :: 0 <= j < i ==> LotOf(entries.value[j]).Some?
      invariant |store.lots| == i && forall j :: 0 <= j < i ==> store.lots[j] == LotOf(entries.value[j]).value
      invariant store.saved == [] && store.imagePath.None?
    {
      var lot := LotOf(entries.value[i]);
      if lot.None? {
        return None;
      }
      AddEntry(store, lot.value);
    }
    assert store.lots == LotsOf(entries.value).value;
    store.Save();
    return Some(store.saved[0]);
  }

  /** `lots_data.add_lot(lot_id=lot["id"], x1=q[0], ..., y4=q[7])` for a converted entry. */
  method AddEntry(store: LotStore, lot: Lot)
    modifies store
    ensures store.lots == old(store.lots) + [lot]
    ensures store.saved == old(store.saved) && store.imagePath == old(store.imagePath)
  {
    var q := lot.quad;
    store.AddLot(lot.id, q[0], q[1], q[2], q[3], q[4], q[5], q[6], q[7]);
    assert [q[0], q[1], q[2], q[3], q[4], q[5], q[6], q[7]] == q;
  }

  /** A written file is named after its camera and holds the first preset's lots in
      their order, each with its id and its 8 numbers in their order. */
  lemma CameraFileLots(camera: Json)
    requires CameraFile(camera).Some?
    ensures var (file, doc) := CameraFile(camera).value;
      Get(camera, "name").Some? && Get(camera, "name").value.JStr? &&
      file == OutputFile(Get(camera, "name").value.s) && doc.version == "0.1" && doc.imagePath.None? &&
      CameraLots(camera).Some? && |doc.lots| == |CameraLots(camera).value| &&
      forall i :: 0 <= i < |doc.lots| ==> doc.lots[i] == LotOf(CameraLots(camera).value[i]).value
  {
  }
}
