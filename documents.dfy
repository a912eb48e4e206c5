/** Documents of a collection: an ObjectId, a creation timestamp and the record itself. */
module Documents {
  import opened Results
  import opened Seqs

  type Id = string

  predicate IsHexDigit(c: char) {
    ('0' <= c <= '9') || ('a' <= c <= 'f') || ('A' <= c <= 'F')
  }

  /** mongoose.Types.ObjectId.isValid on a request parameter, in its canonical 24-hex-digit form. */
  predicate IsValidId(s: string) {
    |s| == 24 && forall i | 0 <= i < |s| :: IsHexDigit(s[i])
  }

  datatype Doc<T> = Doc(id: Id, createdAt: nat, body: T)

  function Ids<T(!new)>(c: seq<Doc<T>>): set<Id> {
    set i | 0 <= i < |c| :: c[i].id
  }

  /** Ids are primary keys: no two documents share one. */
  predicate UniqueIds<T(!new)>(c: seq<Doc<T>>) {
    forall i, j | 0 <= i < j < |c| :: c[i].id != c[j].id
  }

  /** Stored order is creation order: timestamps never decrease along the collection. */
  predicate Chronological<T(!new)>(c: seq<Doc<T>>) {
    forall i, j | 0 <= i < j < |c| :: c[i].createdAt <= c[j].createdAt
  }

  predicate NewestFirst<T(!new)>(c: seq<Doc<T>>) {
    forall i, j | 0 <= i < j < |c| :: c[i].createdAt >= c[j].createdAt
  }

  /** No stored document is later than t: the clock reading t may stamp the next insertion. */
  predicate NotAfter<T(!new)>(c: seq<Doc<T>>, t: nat) {
    forall i | 0 <= i < |c| :: c[i].createdAt <= t
  }

  /** findById: the position of the document with that id. */
  function IndexOf<T(!new)>(c: seq<Doc<T>>, id: Id): (r: Option<nat>)
    ensures r.None? <==> id !in Ids(c)
    ensures r.Some? ==> r.value < |c| && c[r.value].id == id
    ensures r.Some? && UniqueIds(c) ==> forall k | 0 <= k < |c| && k != r.value :: c[k].id != id
  {
    if c == [] then None
    else if c[0].id == id then Some(0)
    else match IndexOf(c[1..], id)
      case None => None
      case Some(k) => Some(k + 1)
  }

  /** findById returning the document itself, or null. */
  function Lookup<T(!new)>(c: seq<Doc<T>>, id: Id): (r: Option<Doc<T>>)
    ensures r.None? <==> id !in Ids(c)
    ensures r.Some? ==> r.value in c && r.value.id == id
    ensures UniqueIds(c) ==> forall d | d in c && d.id == id :: r == Some(d)
  {
    match IndexOf(c, id)
    case None => None
    case Some(k) => Some(c[k])
  }

  function WithoutId<T(!new)>(id: Id): Doc<T> -> bool {
    (d: Doc<T>) => d.id != id
  }

  /** deleteOne({ _id: id }): exactly the document with that id disappears. */
  function Delete<T(!new)>(c: seq<Doc<T>>, id: Id): (r: seq<Doc<T>>)
    ensures forall d :: d in r <==> d in c && d.id != id
    ensures Ids(r) == Ids(c) - {id}
  {
    Filter(c, WithoutId(id))
  }

  /** Deleting keeps ids unique and keeps creation order. */
  lemma {:induction false} DeleteKeepsInvariants<T(!new)>(c: seq<Doc<T>>, id: Id)
    requires UniqueIds(c) && Chronological(c)
    ensures UniqueIds(Delete(c, id)) && Chronological(Delete(c, id))
  {
    FilterKeepsInvariants(c, WithoutId(id));
  }

  lemma {:induction false} FilterKeepsInvariants<T(!new)>(c: seq<Doc<T>>, p: Doc<T> -> bool)
    requires UniqueIds(c) && Chronological(c)
    ensures UniqueIds(Filter(c, p)) && Chronological(Filter(c, p))
  {
    if c != [] {
      FilterKeepsInvariants(c[1..], p);
      var rest := Filter(c[1..], p);
      HeadPrecedesRest(c, p);
      if p(c[0]) {
        ConsKeepsInvariants(c[0], rest);
        assert Filter(c, p) == [c[0]] + rest;
      } else {
        assert Filter(c, p) == rest;
      }
    }
  }

  /** A query result never repeats an id when the collection does not. */
  lemma {:induction false} FilterKeepsUniqueIds<T(!new)>(c: seq<Doc<T>>, p: Doc<T> -> bool)
    requires UniqueIds(c)
    ensures UniqueIds(Filter(c, p))
  {
    if c != [] {
      var tail := c[1..];
      TailUniqueIds(c);
      FilterKeepsUniqueIds(tail, p);
      var rest := Filter(tail, p);
      forall k | 0 <= k < |rest| ensures rest[k].id != c[0].id {
        assert rest[k] in tail;
        var j :| 0 <= j < |tail| && tail[j] == rest[k];
        assert c[j + 1] == rest[k];
      }
      if p(c[0]) {
        ConsUniqueIds(c[0], rest);
        assert Filter(c, p) == [c[0]] + rest;
      } else {
        assert Filter(c, p) == rest;
      }
    }
  }

  lemma {:induction false} TailUniqueIds<T(!new)>(c: seq<Doc<T>>)
    requires c != [] && UniqueIds(c)
    ensures UniqueIds(c[1..])
  {
    var tail := c[1..];
    forall i, j | 0 <= i < j < |tail| ensures tail[i].id != tail[j].id {
      assert tail[i] == c[i + 1] && tail[j] == c[j + 1];
    }
  }

  lemma {:induction false} ConsUniqueIds<T(!new)>(x: Doc<T>, rest: seq<Doc<T>>)
    requires UniqueIds(rest)
    requires forall k | 0 <= k < |rest| :: rest[k].id != x.id
    ensures UniqueIds([x] + rest)
  {
    var r := [x] + rest;
    forall i, j | 0 <= i < j < |r| ensures r[i].id != r[j].id {
      assert r[j] == rest[j - 1];
      if i > 0 {
        assert r[i] == rest[i - 1];
      }
    }
  }

  /** With unique ids a collection holds exactly as many ids as documents. */
  lemma {:induction false} DistinctIdsCount<T(!new)>(c: seq<Doc<T>>)
    requires UniqueIds(c)
    ensures |Ids(c)| == |c|
  {
    if c != [] {
      var rest := c[1..];
      assert UniqueIds(rest) by {
        forall i, j | 0 <= i < j < |rest| ensures rest[i].id != rest[j].id {
          assert rest[i] == c[i + 1] && rest[j] == c[j + 1];
        }
      }
      DistinctIdsCount(rest);
      assert Ids(c) == {c[0].id} + Ids(rest) by {
        assert forall i | 0 < i < |c| :: c[i] == rest[i - 1];
        assert forall i | 0 <= i < |rest| :: rest[i] == c[i + 1];
      }
      assert c[0].id !in Ids(rest) by {
        forall i | 0 <= i < |rest| ensures rest[i].id != c[0].id {
          assert rest[i] == c[i + 1];
        }
      }
    }
  }

  lemma HeadPrecedesRest<T(!new)>(c: seq<Doc<T>>, p: Doc<T> -> bool)
    requires c != [] && UniqueIds(c) && Chronological(c)
    ensures forall k | 0 <= k < |Filter(c[1..], p)| ::
      Filter(c[1..], p)[k].id != c[0].id && c[0].createdAt <= Filter(c[1..], p)[k].createdAt
  {
    var rest := Filter(c[1..], p);
    forall k | 0 <= k < |rest|
      ensures rest[k].id != c[0].id && c[0].createdAt <= rest[k].createdAt
    {
      assert rest[k] in c[1..];
      var j :| 0 <= j < |c[1..]| && c[1..][j] == rest[k];
      assert c[j + 1] == rest[k];
    }
  }

  lemma ConsKeepsInvariants<T(!new)>(d: Doc<T>, rest: seq<Doc<T>>)
    requires UniqueIds(rest) && Chronological(rest)
    requires forall k | 0 <= k < |rest| :: rest[k].id != d.id && d.createdAt <= rest[k].createdAt
    ensures UniqueIds([d] + rest) && Chronological([d] + rest)
  {
    var r := [d] + rest;
    forall i, j | 0 <= i < j < |r| ensures r[i].id != r[j].id && r[i].createdAt <= r[j].createdAt {
      assert r[j] == rest[j - 1];
      if i > 0 {
        assert r[i] == rest[i - 1];
      }
    }
  }

  /** Reversing a chronological collection lists it newest first. */
  lemma ReverseIsNewestFirst<T(!new)>(c: seq<Doc<T>>)
    requires Chronological(c)
    ensures NewestFirst(Reverse(c))
  {
  }

  /** Appending a document stamped now, under a fresh id, keeps both invariants. */
  lemma AppendKeepsInvariants<T(!new)>(c: seq<Doc<T>>, d: Doc<T>)
    requires UniqueIds(c) && Chronological(c)
    requires d.id !in Ids(c) && NotAfter(c, d.createdAt)
    ensures UniqueIds(c + [d]) && Chronological(c + [d])
  {
    assert forall k | 0 <= k < |c| :: c[k] in c;
  }

  /** Replacing the record of one document keeps ids, timestamps and hence both invariants. */
  lemma ReplaceKeepsInvariants<T(!new)>(c: seq<Doc<T>>, i: nat, body: T)
    requires i < |c|
    ensures UniqueIds(c) && Chronological(c) ==>
      UniqueIds(c[i := c[i].(body := body)]) && Chronological(c[i := c[i].(body := body)])
  {
  }

  /** Replacing the record of one document keeps the set of ids. */
  lemma ReplaceKeepsIds<T(!new)>(c: seq<Doc<T>>, i: nat, body: T)
    requires i < |c|
    ensures Ids(c[i := c[i].(body := body)]) == Ids(c)
  {
    var r := c[i := c[i].(body := body)];
    forall x | x in Ids(c) ensures x in Ids(r) {
      var d :| d in c && d.id == x;
      var k :| 0 <= k < |c| && c[k] == d;
      assert r[k].id == x;
    }
    forall x | x in Ids(r) ensures x in Ids(c) {
      var d :| d in r && d.id == x;
      var k :| 0 <= k < |r| && r[k] == d;
      assert c[k].id == x;
    }
  }

  /** findById, assign, save: the document with that id gets a new record; ids, timestamps and the rest are kept. */
  function Replace<T(!new)>(c: seq<Doc<T>>, id: Id, body: T): (r: seq<Doc<T>>)
    requires id in Ids(c)
    ensures |r| == |c| && Ids(r) == Ids(c)
    ensures forall k | 0 <= k < |c| :: r[k].id == c[k].id && r[k].createdAt == c[k].createdAt
    ensures forall k | 0 <= k < |c| && c[k].id != id :: r[k] == c[k]
    ensures UniqueIds(c) ==> forall k | 0 <= k < |c| && c[k].id == id :: r[k].body == body
    ensures UniqueIds(c) && Chronological(c) ==> UniqueIds(r) && Chronological(r)
  {
    var i := IndexOf(c, id).value;
    ReplaceKeepsIds(c, i, body);
    ReplaceKeepsInvariants(c, i, body);
    c[i := c[i].(body := body)]
  }
}
