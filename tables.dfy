/** A MongoDB collection as the handlers see it: documents keyed by `_id`, plus
    the collection's natural order, which `find()` and `findOne()` follow. */
module Tables {
  import opened Common

  function Remove(order: seq<string>, k: string): (r: seq<string>)
    ensures forall x :: x in r <==> x in order && x != k
    ensures |r| <= |order|
  {
    if order == [] then []
    else if order[0] == k then Remove(order[1..], k)
    else [order[0]] + Remove(order[1..], k)
  }

  ghost predicate Distinct(s: seq<string>) {
    forall i, j :: 0 <= i < j < |s| ==> s[i] != s[j]
  }

  lemma {:induction false} RemoveDistinct(order: seq<string>, k: string)
    requires Distinct(order)
    ensures Distinct(Remove(order, k))
  {
    if order != [] {
      assert Distinct(order[1..]) by {
        forall i, j | 0 <= i < j < |order| - 1 ensures order[1..][i] != order[1..][j] {
          assert order[1..][i] == order[i + 1] && order[1..][j] == order[j + 1];
        }
      }
      RemoveDistinct(order[1..], k);
      if order[0] != k {
        var r := Remove(order[1..], k);
        assert order[0] !in r by {
          forall i | 1 <= i < |order| ensures order[i] != order[0] {
          }
          assert order[0] !in order[1..];
        }
        forall i, j | 0 <= i < j < |[order[0]] + r| ensures ([order[0]] + r)[i] != ([order[0]] + r)[j] {
          if i == 0 {
            assert ([order[0]] + r)[j] == r[j - 1];
          } else {
            assert ([order[0]] + r)[i] == r[i - 1] && ([order[0]] + r)[j] == r[j - 1];
          }
        }
      }
    }
  }

  datatype Table<T> = Table(order: seq<string>, rows: map<string, T>) {

    /** The natural order lists every `_id` of the collection exactly once. */
    ghost predicate Wf() {
      Distinct(order) && forall k :: k in rows <==> k in order
    }

    /** `findByIdAndUpdate` on an existing document: the natural order is kept. */
    function Update(id: string, v: T): (t: Table<T>)
      ensures t.order == order && t.rows == rows[id := v]
    {
      Table(order, rows[id := v])
    }

    /** Replacing an existing document keeps the table well formed. */
    lemma UpdateKeepsWf(id: string, v: T)
      requires Wf() && id in rows
      ensures Update(id, v).Wf()
    {
    }

    /** `save` / `insertMany` of a new document: it goes to the end of the natural order. */
    function Insert(id: string, v: T): (t: Table<T>)
      requires id !in rows
      ensures t.order == order + [id] && t.rows == rows[id := v]
      ensures Wf() ==> t.Wf()
    {
      Table(order + [id], rows[id := v])
    }

    /** `findOne(filter)`: the position in the natural order of the first document
        that satisfies `p`. */
    function FindIndex(p: T -> bool, from: nat := 0): (r: Option<nat>)
      requires from <= |order|
      decreases |order| - from
      ensures r.Some? ==> from <= r.value < |order| && order[r.value] in rows && p(rows[order[r.value]])
      ensures forall i :: from <= i < (if r.Some? then r.value else |order|) ==>
                order[i] !in rows || !p(rows[order[i]])
    {
      if from == |order| then None
      else if order[from] in rows && p(rows[order[from]]) then Some(from)
      else FindIndex(p, from + 1)
    }

    /** `findOne(filter)`: the `_id` of the first document that satisfies `p`. */
    function Find(p: T -> bool): (r: Option<string>)
      ensures r.Some? ==> r.value in rows && p(rows[r.value])
      ensures r.None? && Wf() ==> forall k :: k in rows ==> !p(rows[k])
    {
      match FindIndex(p)
      case Some(i) => Some(order[i])
      case None =>
        assert Wf() ==> forall k :: k in rows ==> !p(rows[k]) by {
          if Wf() {
            forall k | k in rows ensures !p(rows[k]) {
              var i :| 0 <= i < |order| && order[i] == k;
            }
          }
        }
        None
    }

    /** Replacing a document by one that `p` judges alike leaves what `findOne` finds unchanged. */
    lemma FindAfterUpdate(id: string, v: T, p: T -> bool)
      requires id in rows && p(v) == p(rows[id])
      ensures Update(id, v).Find(p) == Find(p)
    {
      FindIndexAfterUpdate(id, v, p, 0);
    }

    lemma {:induction false} FindIndexAfterUpdate(id: string, v: T, p: T -> bool, from: nat)
      requires id in rows && p(v) == p(rows[id]) && from <= |order|
      ensures Update(id, v).FindIndex(p, from) == FindIndex(p, from)
      decreases |order| - from
    {
      if from < |order| {
        FindIndexAfterUpdate(id, v, p, from + 1);
      }
    }

    /** `deleteOne({_id: id})`. */
    function Delete(id: string): (t: Table<T>)
      ensures t.rows == rows - {id}
      ensures forall k :: k in t.order <==> k in order && k != id
      ensures Wf() ==> t.Wf()
    {
      var t := Table(Remove(order, id), rows - {id});
      assert Wf() ==> t.Wf() by {
        if Wf() { RemoveDistinct(order, id); }
      }
      t
    }
  }

  function EmptyTable<T>(): (t: Table<T>)
    ensures t.Wf() && t.rows == map[] && t.order == []
  {
    Table([], map[])
  }
}
