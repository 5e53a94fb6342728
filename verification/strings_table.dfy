/** The UI string table `STRINGS` and `getString`, which walks a dotted path through it. */
module StringsTable {
  import opened Options
  import opened Text

  /** A node of the table: a text leaf or a nested table of named entries. */
  datatype Node = Leaf(text: string) | Table(entries: seq<Entry>)
  datatype Entry = Entry(key: string, node: Node)

  /** What a property walk evaluates to: a node, `undefined`, or a `TypeError` thrown by reading a
      property of `undefined`. */
  datatype Lookup = Found(node: Node) | Undefined | TypeError

  const SERVER_STATUS: Node := Table([
    Entry("connected", Leaf("연결됨")),
    Entry("disconnected", Leaf("연결 끊김"))])

  const SERVER: Node := Table([
    Entry("status", SERVER_STATUS),
    Entry("process", Table([
      Entry("running", Leaf("실행 중")),
      Entry("stopped", Leaf("중지됨"))])),
    Entry("resources", Table([
      Entry("cpu", Leaf("CPU")),
      Entry("memory", Leaf("메모리")),
      Entry("disk", Leaf("디스크"))])),
    Entry("detail", Table([
      Entry("title", Leaf("서버 상세 정보")),
      Entry("status", Leaf("서버 상태")),
      Entry("resources", Leaf("리소스 사용량")),
      Entry("processes", Leaf("실행 중인 프로세스")),
      Entry("history", Table([
        Entry("title", Leaf("리소스 사용량 추이 (24시간)")),
        Entry("cpu", Leaf("CPU 사용량 (%)")),
        Entry("memory", Leaf("메모리 사용량 (%)"))]))]))])

  const HOME: Node := Table([
    Entry("summary", Table([
      Entry("totalServers", Leaf("전체 서버")),
      Entry("connectedServers", Leaf("정상 서버")),
      Entry("disconnectedServers", Leaf("장애 서버")),
      Entry("totalProcesses", Leaf("전체 프로세스")),
      Entry("unit", Leaf("대"))])),
    Entry("resources", Table([
      Entry("title", Leaf("시스템 리소스 현황")),
      Entry("avgCpu", Table([
        Entry("title", Leaf("평균 CPU 사용률")),
        Entry("description", Leaf("전체 서버 평균"))])),
      Entry("avgMemory", Table([
        Entry("title", Leaf("평균 메모리 사용량")),
        Entry("description", Leaf("전체 서버 평균"))]))])),
    Entry("issues", Table([
      Entry("title", Leaf("문제 발생 서버")),
      Entry("stats", Table([
        Entry("cpu", Leaf("CPU")),
        Entry("memory", Leaf("메모리"))])),
      Entry("noIssues", Leaf("문제가 발생한 서버가 없습니다."))])),
    Entry("warnings", Table([
      Entry("title", Leaf("경고 상태 서버")),
      Entry("noWarnings", Leaf("경고 상태의 서버가 없습니다."))]))])

  /** The whole table: two top-level sections. */
  const STRINGS: Node := Table([Entry("server", SERVER), Entry("home", HOME)])

  /** `obj[key]` on a node: a table's own entry, or `undefined`. */
  function Child(n: Node, key: string): (r: Option<Node>)
    ensures r.Some? ==> n.Table? && exists i :: 0 <= i < |n.entries| && n.entries[i] == Entry(key, r.value)
    ensures r.None? ==> n.Leaf? || forall i :: 0 <= i < |n.entries| ==> n.entries[i].key != key
  {
    match n
    case Leaf(_) => None
    case Table(entries) => EntryLookup(entries, key)
  }

  function EntryLookup(entries: seq<Entry>, key: string): (r: Option<Node>)
    ensures r.Some? ==> exists i :: 0 <= i < |entries| && entries[i] == Entry(key, r.value)
    ensures r.None? ==> forall i :: 0 <= i < |entries| ==> entries[i].key != key
  {
    if |entries| == 0 then None
    else if entries[0].key == key then Some(entries[0].node)
    else
      var r := EntryLookup(entries[1..], key);
      assert r.Some? ==> exists i :: 0 <= i < |entries[1..]| && entries[1..][i] == Entry(key, r.value);
      r
  }

  /** One step of the reduce: read `key` from the current value. */
  function Step(v: Lookup, key: string): Lookup {
    match v
    case Found(n) => (match Child(n, key) case Some(c) => Found(c) case None => Undefined)
    case Undefined => TypeError
    case TypeError => TypeError
  }

  /** `keys.reduce((obj, key) => obj[key], start)`. */
  function Walk(v: Lookup, keys: seq<string>): Lookup
    decreases |keys|
  {
    if |keys| == 0 then v else Walk(Step(v, keys[0]), keys[1..])
  }

  /** `getString(path)`. */
  function GetString(path: string): Lookup {
    Walk(Found(STRINGS), Split(path, '.'))
  }

  /** Walking a concatenated key list is walking the two parts one after the other. */
  lemma {:induction false} WalkAppend(v: Lookup, ks1: seq<string>, ks2: seq<string>)
    ensures Walk(v, ks1 + ks2) == Walk(Walk(v, ks1), ks2)
    decreases |ks1|
  {
    if |ks1| > 0 {
      assert (ks1 + ks2)[1..] == ks1[1..] + ks2;
      WalkAppend(Step(v, ks1[0]), ks1[1..], ks2);
    } else {
      assert ks1 + ks2 == ks2;
    }
  }

  /** Once a walk has thrown it stays thrown. */
  lemma {:induction false} ThrowsIsSticky(keys: seq<string>)
    ensures Walk(TypeError, keys) == TypeError
    decreases |keys|
  {
    if |keys| > 0 {
      ThrowsIsSticky(keys[1..]);
    }
  }

  /** A walk from a node never ends in `TypeError` unless some key other than the last one missed:
      the walk throws exactly when a proper prefix of the keys already evaluates to `undefined`. */
  lemma {:induction false} ThrowsIffInnerKeyMissing(n: Node, keys: seq<string>)
    ensures Walk(Found(n), keys) == TypeError <==>
              exists i :: 1 <= i < |keys| && Walk(Found(n), keys[..i]) == Undefined
    decreases |keys|
  {
    if |keys| == 0 {
    } else {
      var first := Step(Found(n), keys[0]);
      assert Walk(Found(n), keys[..1]) == first;
      match first {
        case Undefined =>
          if |keys| > 1 {
            ThrowsIsSticky(keys[2..]);
            assert Walk(Found(n), keys) == Walk(TypeError, keys[2..]);
          } else {
            assert Walk(Found(n), keys) == Undefined;
          }
        case Found(c) =>
          ThrowsIffInnerKeyMissing(c, keys[1..]);
          if Walk(Found(n), keys) == TypeError {
            var j :| 1 <= j < |keys[1..]| && Walk(Found(c), keys[1..][..j]) == Undefined;
            assert keys[..j + 1] == [keys[0]] + keys[1..][..j];
            assert Walk(Found(n), keys[..j + 1]) == Walk(Found(c), keys[1..][..j]);
          }
          if exists i :: 1 <= i < |keys| && Walk(Found(n), keys[..i]) == Undefined {
            var i :| 1 <= i < |keys| && Walk(Found(n), keys[..i]) == Undefined;
            assert i != 1;
            assert keys[..i] == [keys[0]] + keys[1..][..i - 1];
            assert Walk(Found(n), keys[..i]) == Walk(Found(c), keys[1..][..i - 1]);
          }
        case TypeError =>
      }
    }
  }

  /** A path that starts with one plain key descends into that key's entry first. */
  lemma GetStringDescends(key: string, rest: string)
    requires '.' !in key
    ensures GetString(key + "." + rest) == Walk(Step(Found(STRINGS), key), Split(rest, '.'))
  {
    SplitAppend(key, rest, '.');
    assert key + "." + rest == key + ['.'] + rest;
  }

  /** The key list of a three-segment path. */
  lemma SplitPath3(a: string, b: string, c: string)
    requires '.' !in a && '.' !in b && '.' !in c
    ensures Split(a + "." + b + "." + c, '.') == [a, b, c]
  {
    SplitNoSeparator(c, '.');
    SplitAppend(b, c, '.');
    assert b + "." + c == b + ['.'] + c;
    assert a + "." + b + "." + c == a + ['.'] + (b + "." + c);
    SplitAppend(a, b + "." + c, '.');
  }

  /** Reading a three-segment path is three property reads from the root. */
  lemma GetString3(a: string, b: string, c: string)
    requires '.' !in a && '.' !in b && '.' !in c
    ensures GetString(a + "." + b + "." + c) == Step(Step(Step(Found(STRINGS), a), b), c)
  {
    SplitPath3(a, b, c);
    var v1 := Step(Found(STRINGS), a);
    var v2 := Step(v1, b);
    assert [a, b, c][1..] == [b, c];
    assert [b, c][1..] == [c];
    assert Walk(Step(v2, c), []) == Step(v2, c);
    assert Walk(v2, [c]) == Step(v2, c);
    assert Walk(v1, [b, c]) == Walk(v2, [c]);
  }

  /** A path ending at a leaf returns the leaf's text. */
  lemma ConnectedLabel()
    ensures GetString("server" + "." + "status" + "." + "connected") == Found(Leaf("연결됨"))
  {
    var a, b, c := "server", "status", "connected";
    GetString3(a, b, c);
    assert Child(STRINGS, a) == Some(SERVER);
    assert Child(SERVER, b) == Some(SERVER_STATUS);
  }

  /** A missing last key gives `undefined`, not an error. */
  lemma MissingLeafIsUndefined()
    ensures GetString("server" + "." + "status" + "." + "warning") == Undefined
  {
    var a, b, c := "server", "status", "warning";
    GetString3(a, b, c);
    assert Child(STRINGS, a) == Some(SERVER);
    assert Child(SERVER, b) == Some(SERVER_STATUS);
    assert Child(SERVER_STATUS, c) == None;
  }

  /** A missing inner key makes the next read throw; the forms use such keys. */
  lemma MissingTableThrows()
    ensures GetString("add" + "." + "form" + "." + "required") == TypeError
  {
    var a, b, c := "add", "form", "required";
    GetString3(a, b, c);
    assert Child(STRINGS, a) == None;
  }

  /** Reading a two-segment path is two property reads from the root. */
  lemma GetString2(a: string, b: string)
    requires '.' !in a && '.' !in b
    ensures GetString(a + "." + b) == Step(Step(Found(STRINGS), a), b)
  {
    SplitNoSeparator(b, '.');
    SplitAppend(a, b, '.');
    assert a + "." + b == a + ['.'] + b;
    var v1 := Step(Found(STRINGS), a);
    assert [a, b][1..] == [b];
    assert Walk(Step(v1, b), []) == Step(v1, b);
    assert Walk(v1, [b]) == Step(v1, b);
  }

  /** A path that stops at an inner node returns the sub-table, despite the declared string type. */
  lemma InnerPathReturnsTable()
    ensures GetString("server" + "." + "status") == Found(SERVER_STATUS)
  {
    var a, b := "server", "status";
    GetString2(a, b);
    assert Child(STRINGS, a) == Some(SERVER);
    assert Child(SERVER, b) == Some(SERVER_STATUS);
  }
}
