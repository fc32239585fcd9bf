/**
The durable receipt outbox: one file per receipt, named after it.
*/
module AccountingOutbox {
  import opened Wrappers

  datatype Doc = Doc(receiptId: string, createdAt: int, body: string)

  /** What a receipt file holds: a document, or something that cannot be read as one. */
  datatype File = Good(createdAt: int, body: string) | Unreadable

  type Files = map<string, File>

  /** What the file system does to one write: a failure before the rename leaves no file. */
  datatype Fault = NoFault | MkdirFails | WriteFails | ReplaceFails

  datatype OutboxError = InvalidId | MkdirError | PersistError | ReadError | RemoveError

  // ---------------------------------------------------------------- ids

  predicate SafeChar(c: char) {
    'A' <= c <= 'Z' || 'a' <= c <= 'z' || '0' <= c <= '9' || c == '.' || c == '_' || c == '-'
  }

  predicate SafeId(id: string) {
    1 <= |id| <= 200 && forall i :: 0 <= i < |id| ==> SafeChar(id[i])
  }

  // ---------------------------------------------------------------- order of receipts

  predicate StrLess(a: string, b: string) {
    b != "" && (a == "" || a[0] < b[0] || (a[0] == b[0] && StrLess(a[1..], b[1..])))
  }

  /** One string comes before another exactly when it is a shorter prefix, or smaller where they first differ. */
  lemma {:induction false} StrLessIff(a: string, b: string)
    ensures StrLess(a, b) <==> exists k {:trigger SmallerAt(a, b, k)} :: SmallerAt(a, b, k)
  {
    if a == "" {
      if b != "" { assert SmallerAt(a, b, 0); }
    } else if b != "" {
      StrLessIff(a[1..], b[1..]);
      if a[0] < b[0] { assert SmallerAt(a, b, 0); }
      if k :| SmallerAt(a[1..], b[1..], k) && a[0] == b[0] {
        assert a[..k + 1] == [a[0]] + a[1..][..k] && b[..k + 1] == [b[0]] + b[1..][..k];
        assert SmallerAt(a, b, k + 1);
      }
      if k :| SmallerAt(a, b, k) {
        if k > 0 {
          assert a[0] == a[..k][0] == b[..k][0] == b[0];
          assert a[1..][..k - 1] == a[..k][1..] && b[1..][..k - 1] == b[..k][1..];
          assert SmallerAt(a[1..], b[1..], k - 1);
        }
      }
    }
  }

  /** The strings agree up to k, where the first one ends or has the smaller character. */
  predicate SmallerAt(a: string, b: string, k: int) {
    0 <= k <= |a| && k < |b| && a[..k] == b[..k] && (k == |a| || a[k] < b[k])
  }

  predicate Before(a: Doc, b: Doc) {
    a.createdAt < b.createdAt || (a.createdAt == b.createdAt && StrLess(a.receiptId, b.receiptId))
  }

  lemma {:induction false} StrTotal(a: string, b: string)
    ensures a == b || StrLess(a, b) || StrLess(b, a)
    ensures !StrLess(a, a)
    ensures !(StrLess(a, b) && StrLess(b, a))
  {
    if a != "" { StrTotal(a[1..], a[1..]); }
    if a != "" && b != "" {
      StrTotal(a[1..], b[1..]);
      if a[0] == b[0] && a[1..] == b[1..] { assert a == [a[0]] + a[1..] && b == [b[0]] + b[1..]; }
    }
  }

  lemma {:induction false} StrTransitive(a: string, b: string, c: string)
    requires StrLess(a, b) && StrLess(b, c)
    ensures StrLess(a, c)
  {
    if a != "" && a[0] == b[0] && b[0] == c[0] { StrTransitive(a[1..], b[1..], c[1..]); }
  }

  lemma BeforeTransitive(a: Doc, b: Doc, c: Doc)
    requires Before(a, b) && Before(b, c)
    ensures Before(a, c)
  {
    if a.createdAt == b.createdAt == c.createdAt { StrTransitive(a.receiptId, b.receiptId, c.receiptId); }
  }

  ghost predicate Sorted(docs: seq<Doc>) {
    forall i, j | 0 <= i < j < |docs| :: Before(docs[i], docs[j])
  }

  function Insert(docs: seq<Doc>, d: Doc): (r: seq<Doc>)
    ensures |r| == |docs| + 1 && forall x: Doc {:trigger x in r} :: x in r <==> x in docs || x == d
  {
    if docs == [] then [d]
    else if Before(docs[|docs| - 1], d) then docs + [d]
    else Insert(docs[..|docs| - 1], d) + [docs[|docs| - 1]]
  }

  lemma {:induction false} InsertSorted(docs: seq<Doc>, d: Doc)
    requires Sorted(docs) && forall x <- docs :: x.receiptId != d.receiptId
    ensures Sorted(Insert(docs, d))
    decreases |docs|
  {
    if docs != [] {
      var last := docs[|docs| - 1];
      var init := docs[..|docs| - 1];
      if Before(last, d) {
        forall i | 0 <= i < |docs| ensures Before(docs[i], d) {
          if i < |docs| - 1 { BeforeTransitive(docs[i], last, d); }
        }
      } else {
        assert last in docs && forall x <- init :: x in docs;
        InsertSorted(init, d);
        StrTotal(last.receiptId, d.receiptId);
        var r := Insert(init, d);
        forall i | 0 <= i < |r| ensures Before(r[i], last) { assert r[i] in r; }
      }
    }
  }

  lemma SomeIn(a: seq<Doc>)
    requires a != []
    ensures exists d: Doc :: d in a
  {
    assert a[0] in a;
  }

  /** Receipts have one order: two sorted lists of the same documents are equal. */
  lemma {:induction false} SortedUnique(a: seq<Doc>, b: seq<Doc>)
    requires Sorted(a) && Sorted(b) && forall d: Doc :: d in a <==> d in b
    ensures a == b
    decreases |a|
  {
    if a == [] {
      if b != [] { SomeIn(b); }
    } else {
      assert a[0] in b;
      assert b[0] in a;
      var i :| 0 <= i < |b| && b[i] == a[0];
      var j :| 0 <= j < |a| && a[j] == b[0];
      StrTotal(a[0].receiptId, b[0].receiptId);
      assert a[0] == b[0];
      forall d: Doc ensures d in a[1..] <==> d in b[1..] {
        StrTotal(a[0].receiptId, a[0].receiptId);
        assert d in a <==> d == a[0] || d in a[1..];
        assert d in b <==> d == b[0] || d in b[1..];
      }
      SortedUnique(a[1..], b[1..]);
    }
  }

  // ---------------------------------------------------------------- operations

  function Persisted(files: Files, r: Doc, fault: Fault): (Files, Result<Doc, OutboxError>) {
    if !SafeId(r.receiptId) then (files, Err(InvalidId))
    else if r.receiptId in files then
      match files[r.receiptId]
      case Good(at, body) => (files, Ok(Doc(r.receiptId, at, body)))
      case Unreadable => (files, Err(ReadError))
    else
      match fault
      case NoFault => (files[r.receiptId := Good(r.createdAt, r.body)], Ok(r))
      case MkdirFails => (files, Err(MkdirError))
      case WriteFails => (files, Err(PersistError))
      case ReplaceFails => (files, Err(PersistError))
  }

  /** Result of an acknowledgement: whether it was already gone. */
  function Acked(files: Files, id: string, removeFails: bool): (Files, Result<bool, OutboxError>) {
    if !SafeId(id) then (files, Err(InvalidId))
    else if id !in files then (files, Ok(true))
    else if removeFails then (files, Err(RemoveError))
    else (files - {id}, Ok(false))
  }

  class AccountingOutbox {
    var files: Files

    constructor ()
      ensures files == map[]
    {
      files := map[];
    }

    /**
    Stores a receipt and returns the stored document; a receipt already stored is returned as it is.  Whatever is
    returned is what the file holds, no other file is touched, and a failure leaves every file as it was.
    */
    method Persist(r: Doc, fault: Fault) returns (out: Result<Doc, OutboxError>)
      modifies this
      ensures out.Ok? <==> SafeId(r.receiptId)
                           && (if r.receiptId in old(files) then old(files)[r.receiptId].Good? else fault.NoFault?)
      ensures out.Ok? ==> out.value.receiptId == r.receiptId && r.receiptId in files
                          && files[r.receiptId] == Good(out.value.createdAt, out.value.body)
      ensures out.Ok? && r.receiptId !in old(files) ==> out.value == r
      ensures out.Err? || r.receiptId in old(files) ==> files == old(files)
      ensures files - {r.receiptId} == old(files) - {r.receiptId}
      ensures (files, out) == Persisted(old(files), r, fault)
    {
      if !SafeId(r.receiptId) { return Err(InvalidId); }
      if r.receiptId in files {
        match files[r.receiptId]
        case Good(at, body) => return Ok(Doc(r.receiptId, at, body));
        case Unreadable => return Err(ReadError);
      }
      if fault == MkdirFails { return Err(MkdirError); }
      // the temporary file of a write or rename that fails is removed again, and no listing reads it
      if fault == WriteFails || fault == ReplaceFails { return Err(PersistError); }
      files := files[r.receiptId := Good(r.createdAt, r.body)];
      return Ok(r);
    }

    /** All receipts in creation order, ties by id; one unreadable file makes the listing fail. */
    method Pending() returns (out: Result<seq<Doc>, OutboxError>)
      ensures out.Ok? <==> forall id <- files :: files[id].Good?
      ensures out.Ok? ==> Sorted(out.value)
      ensures out.Ok? ==> forall i, j | 0 <= i < j < |out.value| ::
                var a, b := out.value[i], out.value[j];
                a.createdAt <= b.createdAt && (a.createdAt == b.createdAt ==> StrLess(a.receiptId, b.receiptId))
      ensures out.Ok? ==> forall d: Doc {:trigger d in out.value} ::
                d in out.value <==> d.receiptId in files && files[d.receiptId] == Good(d.createdAt, d.body)
    {
      var docs: seq<Doc> := [];
      var left := files.Keys;
      while left != {}
        invariant left <= files.Keys
        invariant forall id <- files.Keys - left :: files[id].Good?
        invariant Sorted(docs)
        invariant forall d: Doc {:trigger d in docs} ::
                    d in docs <==> d.receiptId in files.Keys - left && files[d.receiptId] == Good(d.createdAt, d.body)
        decreases left
      {
        var id :| id in left;
        if files[id].Unreadable? { return Err(ReadError); }
        var d := Doc(id, files[id].createdAt, files[id].body);
        InsertSorted(docs, d);
        docs := Insert(docs, d);
        left := left - {id};
      }
      return Ok(docs);
    }

    /** Removes one receipt and says whether it was gone already; no other file is touched. */
    method Ack(id: string, removeFails: bool) returns (out: Result<bool, OutboxError>)
      modifies this
      ensures out.Ok? ==> id !in files && (out.value <==> id !in old(files))
      ensures out.Err? ==> files == old(files) && (!SafeId(id) || (id in files && removeFails))
      ensures files - {id} == old(files) - {id}
      ensures (files, out) == Acked(old(files), id, removeFails)
    {
      if !SafeId(id) { return Err(InvalidId); }
      if id !in files { return Ok(true); }
      if removeFails { return Err(RemoveError); }
      files := files - {id};
      return Ok(false);
    }
  }

  // ---------------------------------------------------------------- runs

  datatype Op = PersistOp(r: Doc, fault: Fault) | AckOp(id: string, removeFails: bool)

  function Apply(files: Files, op: Op): Files {
    match op
    case PersistOp(r, fault) => Persisted(files, r, fault).0
    case AckOp(id, fails) => Acked(files, id, fails).0
  }

  function ApplyAll(files: Files, ops: seq<Op>): Files
    decreases |ops|
  {
    if ops == [] then files else ApplyAll(Apply(files, ops[0]), ops[1..])
  }

  /**
  A stored receipt survives every run unchanged, whatever is persisted under its id, until an acknowledgement removes
  it.
  */
  lemma {:induction false} StoredUntilAcked(files: Files, ops: seq<Op>, id: string)
    requires id in files && SafeId(id)
    ensures AckOp(id, false) !in ops ==> id in ApplyAll(files, ops) && ApplyAll(files, ops)[id] == files[id]
    decreases |ops|
  {
    if ops != [] && AckOp(id, false) !in ops {
      assert ops[0] in ops;
      StoredUntilAcked(Apply(files, ops[0]), ops[1..], id);
    }
  }

  /** Persisting is idempotent by id: once it has succeeded, a retry with any content returns the stored document. */
  lemma RetryReturnsStored(files: Files, r: Doc, fault: Fault, ops: seq<Op>, again: Doc, fault': Fault)
    requires Persisted(files, r, fault).1.Ok? && AckOp(r.receiptId, false) !in ops && again.receiptId == r.receiptId
    ensures var after := ApplyAll(Persisted(files, r, fault).0, ops);
            Persisted(after, again, fault') == (after, Persisted(files, r, fault).1)
  {
    StoredUntilAcked(Persisted(files, r, fault).0, ops, r.receiptId);
  }
}
