/**
 * The docs list screen's columns (`CT_Docs_Admin`,
 * admin/class-ct-docs-admin.php): the two added columns and the sortable
 * read-time column.
 */
module Admin {

  /**
   * A PHP array with string keys: its keys in insertion order and the value
   * of each.
   */
  datatype Columns = Columns(keys: seq<string>, labels: map<string, string>)

  /** No key is listed twice. */
  predicate Distinct(keys: seq<string>) {
    forall i, j :: 0 <= i < j < |keys| ==> keys[i] != keys[j]
  }

  /** Every listed key has a value. */
  predicate Covered(c: Columns) {
    forall k :: k in c.keys ==> k in c.labels
  }

  /** Each key is listed once, and exactly the listed keys have a value. */
  predicate Valid(c: Columns) {
    && Distinct(c.keys)
    && Covered(c)
    && (forall k :: k in c.labels ==> k in c.keys)
  }

  /**
   * `$c[$key] = $value`: an existing key keeps its place and takes the new
   * value; a new key goes at the end.
   */
  function Put(c: Columns, key: string, value: string): (r: Columns)
    ensures key in c.labels ==> r.keys == c.keys
    ensures key !in c.labels ==> r.keys == c.keys + [key]
    ensures r.labels == c.labels[key := value]
  {
    if key in c.labels then Columns(c.keys, c.labels[key := value])
    else Columns(c.keys + [key], c.labels[key := value])
  }

  /** Setting a key keeps the array well formed. */
  lemma PutValid(c: Columns, key: string, value: string)
    requires Valid(c)
    ensures Valid(Put(c, key, value))
  {
  }

  // ---------------------------------------------------------------------
  // add_columns

  /** The loop body of `add_columns` for one entry of the input. */
  function AfterEntry(m: Columns, key: string, value: string): Columns {
    var m1 := Put(m, key, value);
    if key == "title" then Put(Put(m1, "doc_category", "Category"), "read_time", "Read Time") else m1
  }

  /** What `add_columns` has built after the first `n` entries of `c`. */
  function AddedColumns(c: Columns, n: nat): Columns
    requires Covered(c) && n <= |c.keys|
  {
    if n == 0 then Columns([], map[])
    else AfterEntry(AddedColumns(c, n - 1), c.keys[n - 1], c.labels[c.keys[n - 1]])
  }

  /** `add_columns( $columns )` */
  method AddColumns(columns: Columns) returns (newColumns: Columns)
    requires Valid(columns)
    ensures newColumns == AddedColumns(columns, |columns.keys|)
  {
    newColumns := Columns([], map[]);
    for i := 0 to |columns.keys|
      invariant newColumns == AddedColumns(columns, i)
    {
      var key := columns.keys[i];
      var value := columns.labels[key];
      newColumns := Put(newColumns, key, value);
      if key == "title" {
        newColumns := Put(newColumns, "doc_category", "Category");
        newColumns := Put(newColumns, "read_time", "Read Time");
      }
    }
  }

  /** One entry whose key is new, and, for `title`, whose added keys are new too. */
  lemma StepAppends(m: Columns, key: string, value: string)
    requires key !in m.labels
    requires key == "title" ==> "doc_category" !in m.labels && "read_time" !in m.labels
    ensures AfterEntry(m, key, value).keys == m.keys + Expanded(key)
    ensures AfterEntry(m, key, value).labels
         == if key == "title" then m.labels[key := value]["doc_category" := "Category"]["read_time" := "Read Time"]
            else m.labels[key := value]
  {
    if key == "title" {
      assert m.keys + [key] + ["doc_category"] + ["read_time"] == m.keys + ["title", "doc_category", "read_time"];
    }
  }

  /** What one key turns into in the reference order. */
  function Expanded(key: string): seq<string> {
    if key == "title" then ["title", "doc_category", "read_time"] else [key]
  }

  /** Reference order of the keys: `doc_category` and `read_time` right after each `title`. */
  function Inserted(keys: seq<string>): seq<string> {
    if keys == [] then [] else Inserted(keys[..|keys| - 1]) + Expanded(keys[|keys| - 1])
  }

  lemma {:induction false} InsertedConcat(a: seq<string>, b: seq<string>)
    ensures Inserted(a + b) == Inserted(a) + Inserted(b)
    decreases |b|
  {
    if b != [] {
      var n := |b| - 1;
      assert (a + b)[..|a + b| - 1] == a + b[..n];
      assert (a + b)[|a + b| - 1] == b[n];
      assert Inserted(a + b) == Inserted(a + b[..n]) + Expanded(b[n]);
      assert Inserted(b) == Inserted(b[..n]) + Expanded(b[n]);
      InsertedConcat(a, b[..n]);
    } else {
      assert a + b == a;
    }
  }

  lemma {:induction false} InsertedWithoutTitle(keys: seq<string>)
    requires "title" !in keys
    ensures Inserted(keys) == keys
    decreases |keys|
  {
    if keys != [] {
      var n := |keys| - 1;
      assert keys[n] in keys;
      InsertedWithoutTitle(keys[..n]);
      assert keys[..n] + [keys[n]] == keys;
    }
  }

  /**
   * When neither added key is in the input, they are there after `n` entries
   * exactly when a `title` was among them, with their fixed labels.
   */
  lemma {:induction false} AddedAddsAfterTitle(c: Columns, n: nat)
    requires Covered(c) && n <= |c.keys|
    requires "doc_category" !in c.labels && "read_time" !in c.labels
    ensures ("doc_category" in AddedColumns(c, n).labels) == ("title" in c.keys[..n])
    ensures ("read_time" in AddedColumns(c, n).labels) == ("title" in c.keys[..n])
    ensures "title" in c.keys[..n] ==>
              AddedColumns(c, n).labels["doc_category"] == "Category" &&
              AddedColumns(c, n).labels["read_time"] == "Read Time"
  {
    if n > 0 {
      AddedAddsAfterTitle(c, n - 1);
      var key := c.keys[n - 1];
      AfterEntryLabels(AddedColumns(c, n - 1), key, c.labels[key]);
      assert c.keys[..n] == c.keys[..n - 1] + [key];
      assert ("title" in c.keys[..n]) == ("title" in c.keys[..n - 1] || key == "title");
      assert key != "doc_category" && key != "read_time";
    }
  }

  /** The last of the first `n` keys of a list without repeats is not among the ones before it. */
  lemma DistinctLast(keys: seq<string>, n: nat)
    requires Distinct(keys) && 0 < n <= |keys|
    ensures keys[n - 1] !in keys[..n - 1]
  {
    var before := keys[..n - 1];
    forall i | 0 <= i < |before| ensures before[i] != keys[n - 1] {
      assert before[i] == keys[i];
    }
  }

  /** One entry keeps the keys in the reference order when its key is new. */
  lemma ReferenceStep(m: Columns, key: string, value: string, before: seq<string>, keys: seq<string>)
    requires m.keys == Inserted(before) && keys == before + [key]
    requires key !in before && (key in m.labels) == (key in before)
    requires key != "doc_category" && key != "read_time"
    requires ("doc_category" in m.labels) == ("title" in before)
    requires ("read_time" in m.labels) == ("title" in before)
    ensures AfterEntry(m, key, value).keys == Inserted(keys)
  {
    StepAppends(m, key, value);
    assert keys[..|keys| - 1] == before && keys[|keys| - 1] == key;
  }

  /** When neither added key is in the input, the keys come in the reference order. */
  lemma {:induction false} AddedKeysAreReference(c: Columns, n: nat)
    requires Covered(c) && Distinct(c.keys) && n <= |c.keys|
    requires "doc_category" !in c.labels && "read_time" !in c.labels
    ensures AddedColumns(c, n).keys == Inserted(c.keys[..n])
  {
    if n > 0 {
      var m, key := AddedColumns(c, n - 1), c.keys[n - 1];
      AddedKeysAreReference(c, n - 1);
      AddedAddsAfterTitle(c, n - 1);
      DistinctLast(c.keys, n);
      assert key != "doc_category" && key != "read_time";
      AddedKeepsOther(c, n - 1, key);
      assert c.keys[..n] == c.keys[..n - 1] + [key];
      ReferenceStep(m, key, c.labels[key], c.keys[..n - 1], c.keys[..n]);
      assert AddedColumns(c, n) == AfterEntry(m, key, c.labels[key]);
    }
  }

  /**
   * A column that is neither added key, or any column while no `title` has
   * been met, is there after `n` entries exactly when it was among them,
   * with the value it had.
   */
  lemma {:induction false} AddedKeepsOther(c: Columns, n: nat, k: string)
    requires Covered(c) && n <= |c.keys|
    requires (k != "doc_category" && k != "read_time") || "title" !in c.keys[..n]
    ensures (k in AddedColumns(c, n).labels) == (k in c.keys[..n])
    ensures k in AddedColumns(c, n).labels ==> k in c.labels && AddedColumns(c, n).labels[k] == c.labels[k]
  {
    if n > 0 {
      var prev, key := AddedColumns(c, n - 1), c.keys[n - 1];
      assert c.keys[..n] == c.keys[..n - 1] + [key];
      AddedKeepsOther(c, n - 1, k);
      AfterEntryLabels(prev, key, c.labels[key]);
      assert AddedColumns(c, n) == AfterEntry(prev, key, c.labels[key]);
    }
  }

  /** Without a `title` key, the loop lists the keys in their order. */
  lemma {:induction false} AddedWithoutTitle(c: Columns, n: nat)
    requires Valid(c) && n <= |c.keys|
    requires "title" !in c.labels
    ensures AddedColumns(c, n).keys == c.keys[..n]
  {
    if n > 0 {
      var prev, key := AddedColumns(c, n - 1), c.keys[n - 1];
      assert c.keys[..n] == c.keys[..n - 1] + [key];
      AddedWithoutTitle(c, n - 1);
      assert key !in c.keys[..n - 1];
      assert "title" !in c.keys[..n - 1];
      AddedKeepsOther(c, n - 1, key);
      StepAppends(prev, key, c.labels[key]);
      assert AddedColumns(c, n) == AfterEntry(prev, key, c.labels[key]);
    }
  }

  /** Without a `title` column the columns come back as they were. */
  lemma AddColumnsWithoutTitle(c: Columns)
    requires Valid(c)
    requires "title" !in c.labels
    ensures AddedColumns(c, |c.keys|) == c
  {
    var r := AddedColumns(c, |c.keys|);
    assert c.keys[..|c.keys|] == c.keys;
    AddedWithoutTitle(c, |c.keys|);
    forall k ensures (k in r.labels) == (k in c.labels) && (k in r.labels ==> r.labels[k] == c.labels[k]) {
      AddedKeepsOther(c, |c.keys|, k);
    }
    assert r.labels == c.labels;
  }

  /** A key listed once is in neither part of the list around it. */
  lemma DistinctAround(pre: seq<string>, key: string, post: seq<string>)
    requires Distinct(pre + [key] + post)
    ensures key !in pre && key !in post
  {
    var keys := pre + [key] + post;
    assert keys[|pre|] == key;
    forall i | 0 <= i < |pre| ensures pre[i] != key {
      assert keys[i] == pre[i];
    }
    forall i | 0 <= i < |post| ensures post[i] != key {
      assert keys[|pre| + 1 + i] == post[i];
    }
  }

  /**
   * When neither added key is there already, `Category` and then
   * `Read Time` come right after `title`, and every other column keeps its
   * value and its place.
   */
  lemma AddColumnsAfterTitle(c: Columns, pre: seq<string>, post: seq<string>)
    requires Valid(c)
    requires c.keys == pre + ["title"] + post
    requires "doc_category" !in c.labels && "read_time" !in c.labels
    ensures AddedColumns(c, |c.keys|).keys == pre + ["title", "doc_category", "read_time"] + post
    ensures AddedColumns(c, |c.keys|).labels == c.labels["doc_category" := "Category"]["read_time" := "Read Time"]
  {
    assert c.keys[..|c.keys|] == c.keys;
    var r := AddedColumns(c, |c.keys|);
    assert r.keys == pre + Expanded("title") + post by {
      AddedKeysAreReference(c, |c.keys|);
      DistinctAround(pre, "title", post);
      InsertedConcat(pre + ["title"], post);
      InsertedConcat(pre, ["title"]);
      assert Inserted(["title"]) == [] + Expanded("title") by {
        assert ["title"][..0] == [];
      }
      InsertedWithoutTitle(pre);
      InsertedWithoutTitle(post);
    }
    assert r.labels == c.labels["doc_category" := "Category"]["read_time" := "Read Time"] by {
      forall k | k != "doc_category" && k != "read_time"
        ensures (k in r.labels <==> k in c.keys) && (k in r.labels ==> k in c.labels && r.labels[k] == c.labels[k])
      {
        AddedKeepsOther(c, |c.keys|, k);
      }
      assert "title" in c.keys by {
        assert c.keys[|pre|] == "title";
      }
      AddedAddsAfterTitle(c, |c.keys|);
      AgreesWithAdded(r.labels, c.keys, c.labels);
    }
  }

  /** The values after one entry, whether or not its keys were there before. */
  lemma AfterEntryLabels(m: Columns, key: string, value: string)
    ensures AfterEntry(m, key, value).labels
         == if key == "title" then m.labels[key := value]["doc_category" := "Category"]["read_time" := "Read Time"]
            else m.labels[key := value]
  {
  }

  /**
   * Outside the two added keys, `labels` holds exactly the keys in `keys`,
   * each with its value in `orig`.
   */
  ghost predicate Agrees(labels: map<string, string>, keys: seq<string>, orig: map<string, string>) {
    forall k :: k != "doc_category" && k != "read_time" ==>
      (k in labels <==> k in keys) && (k in labels ==> k in orig && labels[k] == orig[k])
  }

  /** Agreeing on every other key, and holding the two added labels, is being the input with them set. */
  lemma AgreesWithAdded(labels: map<string, string>, keys: seq<string>, orig: map<string, string>)
    requires Agrees(labels, keys, orig)
    requires forall k :: k in keys ==> k in orig
    requires "doc_category" in labels && labels["doc_category"] == "Category"
    requires "read_time" in labels && labels["read_time"] == "Read Time"
    requires forall k :: k in orig ==> k in keys
    ensures labels == orig["doc_category" := "Category"]["read_time" := "Read Time"]
  {
  }

  /** Every input column is kept with its value, except that the two added ones take their fixed labels after a `title`. */
  lemma AddColumnsKeepsColumns(c: Columns)
    requires Valid(c)
    ensures forall k :: k in c.labels ==> k in AddedColumns(c, |c.keys|).labels
    ensures forall k :: k in c.labels && k != "doc_category" && k != "read_time" ==>
              AddedColumns(c, |c.keys|).labels[k] == c.labels[k]
  {
    assert c.keys[..|c.keys|] == c.keys;
    forall k | k in c.labels && k != "doc_category" && k != "read_time"
      ensures k in AddedColumns(c, |c.keys|).labels && AddedColumns(c, |c.keys|).labels[k] == c.labels[k]
    {
      AddedKeepsOther(c, |c.keys|, k);
    }
    forall k | k in c.labels && (k == "doc_category" || k == "read_time")
      ensures k in AddedColumns(c, |c.keys|).labels
    {
      AddedKeepsAll(c, |c.keys|, k);
    }
  }

  /** A key met in the first `n` entries is in what has been built. */
  lemma {:induction false} AddedKeepsAll(c: Columns, n: nat, k: string)
    requires Covered(c) && n <= |c.keys|
    requires k in c.keys[..n]
    ensures k in AddedColumns(c, n).labels
  {
    if k != c.keys[n - 1] {
      assert c.keys[..n] == c.keys[..n - 1] + [c.keys[n - 1]];
      AddedKeepsAll(c, n - 1, k);
    }
  }

  // ---------------------------------------------------------------------
  // sortable_columns

  /** `sortable_columns( $columns )` */
  method SortableColumns(columns: Columns) returns (r: Columns)
    requires Valid(columns)
    ensures Valid(r)
    ensures r.labels == columns.labels["read_time" := "read_time"]
    ensures "read_time" in columns.labels ==> r.keys == columns.keys
    ensures "read_time" !in columns.labels ==> r.keys == columns.keys + ["read_time"]
  {
    r := Put(columns, "read_time", "read_time");
  }
}
