/** The task record and the list computations both copies of the store share: the
    filter behind deleteTask and the map behind toggleTaskCompletion. */
module Tasks {

  /** One to-do item. */
  datatype Task = Task(id: string, text: string, completed: bool)

  /** The seed list: ids "1", "2", "3", none completed. */
  const DefaultTasks: seq<Task> := [
    Task("1", "Task 1", false),
    Task("2", "Task 2", false),
    Task("3", "Task 3", false)
  ]

  predicate HasId(ts: seq<Task>, id: string) {
    exists i :: 0 <= i < |ts| && ts[i].id == id
  }

  /** No two records of the list share an id. */
  predicate UniqueIds(ts: seq<Task>) {
    forall i, j :: 0 <= i < j < |ts| ==> ts[i].id != ts[j].id
  }

  /** a can be obtained from b by dropping elements, so a keeps b's relative order. */
  ghost predicate IsSubsequence<T>(a: seq<T>, b: seq<T>)
    decreases |b|
  {
    || a == []
    || (b != [] && ((a[0] == b[0] && IsSubsequence(a[1..], b[1..])) || IsSubsequence(a, b[1..])))
  }

  /** The seed list has unique ids and no completed record. */
  lemma DefaultTasksWellFormed()
    ensures |DefaultTasks| == 3 && UniqueIds(DefaultTasks)
    ensures forall i :: 0 <= i < |DefaultTasks| ==> !DefaultTasks[i].completed
  {
  }

  /** The list with one new, not completed record appended (the array spread of addTask). */
  function Appended(ts: seq<Task>, id: string, text: string): (r: seq<Task>)
    ensures |r| == |ts| + 1 && r[..|ts|] == ts
    ensures r[|ts|].id == id && r[|ts|].text == text && !r[|ts|].completed
    ensures forall x :: HasId(r, x) <==> HasId(ts, x) || x == id
  {
    ts + [Task(id, text, false)]
  }

  /** Appending keeps the ids unique when the new id is fresh. */
  lemma AppendedKeepsUnique(ts: seq<Task>, id: string, text: string)
    requires UniqueIds(ts) && !HasId(ts, id)
    ensures UniqueIds(Appended(ts, id, text))
  {
    var r := Appended(ts, id, text);
    forall i, j | 0 <= i < j < |r| ensures r[i].id != r[j].id {
      if j == |ts| {
        assert r[i] == ts[i];
      } else {
        assert r[i] == ts[i] && r[j] == ts[j];
      }
    }
  }

  /** tasks.filter(item => item.id !== id): exactly the records whose id differs, each as
      often as before. */
  function Deleted(ts: seq<Task>, id: string): (r: seq<Task>)
    ensures forall t :: t in r <==> t in ts && t.id != id
    ensures forall t :: multiset(r)[t] == if t.id == id then 0 else multiset(ts)[t]
    ensures !HasId(r, id)
  {
    if ts == [] then
      []
    else
      var rest := Deleted(ts[1..], id);
      assert ts == [ts[0]] + ts[1..];
      var r := if ts[0].id != id then [ts[0]] + rest else rest;
      assert !HasId(r, id) by {
        forall i | 0 <= i < |r| ensures r[i].id != id {
          assert r[i] in r;
        }
      }
      r
  }

  /** Deleting keeps the surviving records in their original relative order. */
  lemma {:induction false} DeletedKeepsOrder(ts: seq<Task>, id: string)
    ensures IsSubsequence(Deleted(ts, id), ts)
  {
    if ts != [] {
      DeletedKeepsOrder(ts[1..], id);
      var rest := Deleted(ts[1..], id);
      if ts[0].id != id {
        assert ([ts[0]] + rest)[1..] == rest;
      } else {
        SubsequenceOfTail(rest, ts);
      }
    }
  }

  lemma SubsequenceOfTail<T>(a: seq<T>, b: seq<T>)
    requires b != [] && IsSubsequence(a, b[1..])
    ensures IsSubsequence(a, b)
  {
  }

  /** Deleting an id that no record has leaves the list as it was. */
  lemma {:induction false} DeletedAbsent(ts: seq<Task>, id: string)
    requires !HasId(ts, id)
    ensures Deleted(ts, id) == ts
  {
    if ts != [] {
      assert ts[0].id != id;
      assert !HasId(ts[1..], id) by {
        forall i | 0 <= i < |ts[1..]| ensures ts[1..][i].id != id {
          assert ts[1..][i] == ts[i + 1];
        }
      }
      DeletedAbsent(ts[1..], id);
      assert ts == [ts[0]] + ts[1..];
    }
  }

  /** Deleting twice is deleting once. */
  lemma DeletedIdempotent(ts: seq<Task>, id: string)
    ensures Deleted(Deleted(ts, id), id) == Deleted(ts, id)
  {
    DeletedAbsent(Deleted(ts, id), id);
  }

  /** Deleting keeps the ids unique. */
  lemma {:induction false} DeletedKeepsUnique(ts: seq<Task>, id: string)
    requires UniqueIds(ts)
    ensures UniqueIds(Deleted(ts, id))
  {
    if ts != [] {
      var tail := ts[1..];
      assert UniqueIds(tail) by {
        forall i, j | 0 <= i < j < |tail| ensures tail[i].id != tail[j].id {
          assert tail[i] == ts[i + 1] && tail[j] == ts[j + 1];
        }
      }
      DeletedKeepsUnique(tail, id);
      var rest := Deleted(tail, id);
      if ts[0].id != id {
        forall t | t in rest ensures t.id != ts[0].id {
          var k :| 0 <= k < |tail| && tail[k] == t;
          assert tail[k] == ts[k + 1];
        }
        ConsKeepsUnique(ts[0], rest);
      }
    }
  }

  lemma ConsKeepsUnique(x: Task, s: seq<Task>)
    requires UniqueIds(s)
    requires forall t :: t in s ==> t.id != x.id
    ensures UniqueIds([x] + s)
  {
    var r := [x] + s;
    forall i, j | 0 <= i < j < |r| ensures r[i].id != r[j].id {
      assert r[j] == s[j - 1];
      if i > 0 {
        assert r[i] == s[i - 1];
      }
    }
  }

  /** The record with its completed flag negated when its id matches (the map callback of
      toggleTaskCompletion). */
  function Flipped(t: Task, id: string): (r: Task)
    ensures r.id == t.id && r.text == t.text
    ensures r.completed != t.completed <==> t.id == id
  {
    if t.id == id then t.(completed := !t.completed) else t
  }

  /** tasks.map(...): same length, every id and text kept, completed negated exactly on
      the records whose id matches, all other records untouched. */
  function Toggled(ts: seq<Task>, id: string): (r: seq<Task>)
    ensures |r| == |ts|
    ensures forall i :: 0 <= i < |ts| ==>
      && r[i].id == ts[i].id
      && r[i].text == ts[i].text
      && (r[i].completed <==> (ts[i].completed != (ts[i].id == id)))
    ensures forall i :: 0 <= i < |ts| && ts[i].id != id ==> r[i] == ts[i]
  {
    if ts == [] then [] else [Flipped(ts[0], id)] + Toggled(ts[1..], id)
  }

  /** Toggling the same id twice restores the list. */
  lemma ToggledInvolution(ts: seq<Task>, id: string)
    ensures Toggled(Toggled(ts, id), id) == ts
  {
    var r := Toggled(Toggled(ts, id), id);
    assert forall i :: 0 <= i < |ts| ==> r[i] == ts[i];
  }

  /** Toggling an id that no record has leaves the list as it was. */
  lemma ToggledAbsent(ts: seq<Task>, id: string)
    requires !HasId(ts, id)
    ensures Toggled(ts, id) == ts
  {
    var r := Toggled(ts, id);
    assert forall i :: 0 <= i < |ts| ==> r[i] == ts[i];
  }

  /** Toggling keeps the ids unique. */
  lemma ToggledKeepsUnique(ts: seq<Task>, id: string)
    requires UniqueIds(ts)
    ensures UniqueIds(Toggled(ts, id))
  {
  }
}
