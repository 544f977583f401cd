/** The `contacts` table declared in models_sqlalchemy.py (and, identically,
    in sqlalchemy_crud_example.py): its row type, its `__repr__`, the
    constraints the database enforces when a transaction commits, and the
    session through which both programs change the table. */
module Schema {
  import opened Wrappers
  import opened Text

  const TableName: string := "contacts"

  /** What a write operation reports: the row added (with its id), the row
      changed or removed, no row with the given id, or a rollback after an
      IntegrityError. */
  datatype Outcome = Added(id: int) | Updated | Deleted | NotFound | IntegrityError

  /** One row: `id` is the integer primary key, `name`, `email` and `phone`
      are non-null strings, `email` and `phone` are UNIQUE. */
  datatype Contact = Contact(id: int, name: string, email: string, phone: string)

  // __repr__: <Contact(id=…, name='…', email='…', phone='…')>

  const ReprOpen: string := "<Contact(id="
  const NameOpen: string := ", name='"
  const EmailOpen: string := "', email='"
  const PhoneOpen: string := "', phone='"
  const ReprClose: string := "')>"

  function Repr(c: Contact): (r: string)
    ensures IsPrefix(ReprOpen + IntToString(c.id) + NameOpen, r)
    ensures |r| >= |ReprClose| && r[|r| - |ReprClose|..] == ReprClose
    ensures |r| == |ReprOpen| + |IntToString(c.id)| + |NameOpen| + |c.name| + |EmailOpen| + |c.email|
                   + |PhoneOpen| + |c.phone| + |ReprClose|
  {
    ReprOpen + (IntToString(c.id) + (NameOpen + (c.name + (EmailOpen + (c.email + (PhoneOpen + (c.phone + ReprClose)))))))
  }

  /** Reads a rendering back, field by field; each quoted field ends at the next quote. */
  function ParseRepr(s: string): Option<Contact> {
    if IsPrefix(ReprOpen, s) then ParseFromId(s[|ReprOpen|..]) else None
  }

  function ParseFromId(s: string): Option<Contact> {
    var (idText, rest) := Span(s, ',');
    var id := ParseInt(idText);
    if id.Some? && IsPrefix(NameOpen, rest) then ParseFromName(id.value, rest[|NameOpen|..]) else None
  }

  function ParseFromName(id: int, s: string): Option<Contact> {
    var (name, rest) := Span(s, '\'');
    if IsPrefix(EmailOpen, rest) then ParseFromEmail(id, name, rest[|EmailOpen|..]) else None
  }

  function ParseFromEmail(id: int, name: string, s: string): Option<Contact> {
    var (email, rest) := Span(s, '\'');
    if IsPrefix(PhoneOpen, rest) then ParseFromPhone(id, name, email, rest[|PhoneOpen|..]) else None
  }

  function ParseFromPhone(id: int, name: string, email: string, s: string): Option<Contact> {
    var (phone, rest) := Span(s, '\'');
    if rest == ReprClose then Some(Contact(id, name, email, phone)) else None
  }

  lemma AfterPrefix(p: string, t: string)
    ensures IsPrefix(p, p + t) && (p + t)[|p|..] == t
  {
    assert (p + t)[..|p|] == p;
  }

  /** The rendering shows all four fields, in order, recoverably, as long as
      no text field contains a single quote. */
  lemma ReprRoundTrip(c: Contact)
    requires '\'' !in c.name && '\'' !in c.email && '\'' !in c.phone
    ensures ParseRepr(Repr(c)) == Some(c)
  {
    var t4 := c.phone + ReprClose;
    SpanOf(c.phone, ReprClose, '\'');
    assert ParseFromPhone(c.id, c.name, c.email, t4) == Some(c);
    var t3 := c.email + (PhoneOpen + t4);
    SpanOf(c.email, PhoneOpen + t4, '\'');
    AfterPrefix(PhoneOpen, t4);
    assert ParseFromEmail(c.id, c.name, t3) == Some(c);
    var t2 := c.name + (EmailOpen + t3);
    SpanOf(c.name, EmailOpen + t3, '\'');
    AfterPrefix(EmailOpen, t3);
    assert ParseFromName(c.id, t2) == Some(c);
    var t1 := IntToString(c.id) + (NameOpen + t2);
    SpanOf(IntToString(c.id), NameOpen + t2, ',');
    IntRoundTrip(c.id);
    AfterPrefix(NameOpen, t2);
    assert ParseFromId(t1) == Some(c);
    AfterPrefix(ReprOpen, t1);
  }

  /** Without that condition the rendering is ambiguous: two different rows
      render the same text. */
  lemma ReprAmbiguousWithQuotes()
    ensures Repr(Contact(1, "x', email='y", "z", "p")) == Repr(Contact(1, "x", "y', email='z", "p"))
  {
  }

  // The constraints checked when a transaction commits.

  predicate UniqueIds(rows: seq<Contact>) {
    forall i, j :: 0 <= i < j < |rows| ==> rows[i].id != rows[j].id
  }

  predicate UniqueEmails(rows: seq<Contact>) {
    forall i, j :: 0 <= i < j < |rows| ==> rows[i].email != rows[j].email
  }

  predicate UniquePhones(rows: seq<Contact>) {
    forall i, j :: 0 <= i < j < |rows| ==> rows[i].phone != rows[j].phone
  }

  /** A table state the database accepts: primary key and both UNIQUE columns hold. */
  predicate Admissible(rows: seq<Contact>) {
    UniqueIds(rows) && UniqueEmails(rows) && UniquePhones(rows)
  }

  /** Rows are stored in ascending rowid order, which is also insertion order. */
  predicate Ascending(rows: seq<Contact>) {
    forall i, j :: 0 <= i < j < |rows| ==> rows[i].id < rows[j].id
  }

  predicate HasId(rows: seq<Contact>, id: int) {
    exists c :: c in rows && c.id == id
  }

  predicate EmailTaken(rows: seq<Contact>, email: string) {
    exists c :: c in rows && c.email == email
  }

  predicate PhoneTaken(rows: seq<Contact>, phone: string) {
    exists c :: c in rows && c.phone == phone
  }

  /** `query(Contact).filter(Contact.id == id).one_or_none()`, as a position. */
  function IndexOf(rows: seq<Contact>, id: int): (r: Option<nat>)
    ensures r.Some? ==> r.value < |rows| && rows[r.value].id == id
    ensures r.Some? ==> forall j :: 0 <= j < r.value ==> rows[j].id != id
    ensures r.None? <==> !HasId(rows, id)
  {
    if rows == [] then None
    else if rows[0].id == id then Some(0)
    else match IndexOf(rows[1..], id)
      case None => None
      case Some(k) => Some(k + 1)
  }

  /** A WHERE clause: the rows for which `keep` holds, in table order. */
  function Select(rows: seq<Contact>, keep: Contact -> bool): (r: seq<Contact>)
    ensures |r| <= |rows|
    ensures forall c :: c in r <==> c in rows && keep(c)
  {
    if rows == [] then []
    else if keep(rows[0]) then [rows[0]] + Select(rows[1..], keep)
    else Select(rows[1..], keep)
  }

  /** Filtering keeps table order: it distributes over concatenation. */
  lemma {:induction false} SelectAppend(a: seq<Contact>, b: seq<Contact>, keep: Contact -> bool)
    ensures Select(a + b, keep) == Select(a, keep) + Select(b, keep)
    decreases |a|
  {
    if a == [] {
      assert a + b == b;
    } else {
      assert (a + b)[0] == a[0] && (a + b)[1..] == a[1..] + b;
      SelectAppend(a[1..], b, keep);
    }
  }

  /** A filter every row passes returns the table unchanged. */
  lemma {:induction false} SelectEverything(rows: seq<Contact>, keep: Contact -> bool)
    requires forall c :: c in rows ==> keep(c)
    ensures Select(rows, keep) == rows
    decreases |rows|
  {
    if rows != [] {
      SelectEverything(rows[1..], keep);
    }
  }

  /** Two filters that agree on every row select the same rows. */
  lemma {:induction false} SelectSame(rows: seq<Contact>, p: Contact -> bool, q: Contact -> bool)
    requires forall c :: c in rows ==> p(c) == q(c)
    ensures Select(rows, p) == Select(rows, q)
    decreases |rows|
  {
    if rows != [] {
      SelectSame(rows[1..], p, q);
    }
  }

  /** Chaining two filters is filtering by their conjunction. */
  lemma {:induction false} SelectThenSelect(rows: seq<Contact>, p: Contact -> bool, q: Contact -> bool, both: Contact -> bool)
    requires forall c :: c in rows ==> both(c) == (p(c) && q(c))
    ensures Select(Select(rows, p), q) == Select(rows, both)
    decreases |rows|
  {
    if rows != [] {
      SelectThenSelect(rows[1..], p, q, both);
    }
  }

  /** The table after `session.delete` of every row with this id. */
  function WithoutId(rows: seq<Contact>, id: int): seq<Contact> {
    Select(rows, IdIsNot(id))
  }

  /** The condition `Contact.id != id`. */
  function IdIsNot(id: int): Contact -> bool {
    (c: Contact) => c.id != id
  }

  /** On an admissible table, removing the row found by id is exactly
      dropping that id. */
  lemma WithoutIdAt(rows: seq<Contact>, i: nat)
    requires UniqueIds(rows) && i < |rows|
    ensures WithoutId(rows, rows[i].id) == rows[..i] + rows[i + 1..]
  {
    var id := rows[i].id;
    var before, after := rows[..i], rows[i + 1..];
    assert rows == before + ([rows[i]] + after);
    SelectAppend(before, [rows[i]] + after, IdIsNot(id));
    SelectAppend([rows[i]], after, IdIsNot(id));
    assert Select([rows[i]], IdIsNot(id)) == [];
    IdOnlyAt(rows, i);
    WithoutAbsentId(before, id);
    WithoutAbsentId(after, id);
  }

  /** With unique ids, the id of row `i` occurs neither before nor after it. */
  lemma IdOnlyAt(rows: seq<Contact>, i: nat)
    requires UniqueIds(rows) && i < |rows|
    ensures !HasId(rows[..i], rows[i].id) && !HasId(rows[i + 1..], rows[i].id)
  {
    forall c | c in rows[..i] ensures c.id != rows[i].id {
      var j :| 0 <= j < i && rows[..i][j] == c;
      assert rows[j] == c;
    }
    forall c | c in rows[i + 1..] ensures c.id != rows[i].id {
      var j :| 0 <= j < |rows| - i - 1 && rows[i + 1..][j] == c;
      assert rows[i + 1 + j] == c;
    }
  }

  /** Dropping an id no row has changes nothing. */
  lemma WithoutAbsentId(rows: seq<Contact>, id: int)
    requires !HasId(rows, id)
    ensures WithoutId(rows, id) == rows
  {
    SelectEverything(rows, IdIsNot(id));
  }

  /** Dropping an id twice is dropping it once. */
  lemma WithoutIdTwice(rows: seq<Contact>, id: int)
    ensures WithoutId(WithoutId(rows, id), id) == WithoutId(rows, id)
  {
    WithoutAbsentId(WithoutId(rows, id), id);
  }

  // Rowid allocation.

  /** The largest id of a non-empty table. */
  function MaxId(rows: seq<Contact>): (m: int)
    requires rows != []
    ensures forall c :: c in rows ==> c.id <= m
    ensures exists c :: c in rows && c.id == m
  {
    if |rows| == 1 then rows[0].id
    else
      var rest := MaxId(rows[1..]);
      if rows[0].id > rest then rows[0].id else rest
  }

  /** SQLite's choice of rowid for a row inserted without one: one more than
      the largest rowid in the table, or 1 when the table is empty. */
  function NextId(rows: seq<Contact>): (r: int)
    ensures rows == [] ==> r == 1
    ensures rows != [] ==> exists c :: c in rows && c.id == r - 1
    ensures forall c :: c in rows ==> c.id < r
  {
    if rows == [] then 1 else MaxId(rows) + 1
  }

  /** The allocated id is larger than every id in use, hence fresh. */
  lemma NextIdFresh(rows: seq<Contact>)
    ensures forall c :: c in rows ==> c.id < NextId(rows)
    ensures !HasId(rows, NextId(rows))
  {
  }

  // How each kind of change affects the constraints.

  /** Appending a row with a fresh id commits exactly when its email and its
      phone are unused. */
  lemma AppendAdmissible(rows: seq<Contact>, c: Contact)
    requires Admissible(rows) && !HasId(rows, c.id)
    ensures Admissible(rows + [c]) <==> !EmailTaken(rows, c.email) && !PhoneTaken(rows, c.phone)
  {
    var t := rows + [c];
    assert forall i :: 0 <= i < |rows| ==> t[i] == rows[i];
    assert t[|rows|] == c;
    if EmailTaken(rows, c.email) {
      var d :| d in rows && d.email == c.email;
      var i :| 0 <= i < |rows| && rows[i] == d;
      assert t[i].email == t[|rows|].email;
    }
    if PhoneTaken(rows, c.phone) {
      var d :| d in rows && d.phone == c.phone;
      var i :| 0 <= i < |rows| && rows[i] == d;
      assert t[i].phone == t[|rows|].phone;
    }
    if !EmailTaken(rows, c.email) && !PhoneTaken(rows, c.phone) {
      forall i, j | 0 <= i < j < |t|
        ensures t[i].id != t[j].id && t[i].email != t[j].email && t[i].phone != t[j].phone
      {
        if j == |rows| {
          assert t[i] in rows;
        }
      }
    }
  }

  /** Appending a row whose id exceeds every id in use keeps rowid order. */
  lemma AppendAscending(rows: seq<Contact>, c: Contact)
    requires Ascending(rows) && forall d :: d in rows ==> d.id < c.id
    ensures Ascending(rows + [c])
  {
    var t := rows + [c];
    forall i, j | 0 <= i < j < |t| ensures t[i].id < t[j].id {
      if j == |rows| {
        assert t[i] in rows;
      }
    }
  }

  /** Rewriting row i in place (same id) commits exactly when no other row
      holds its new email or its new phone. */
  lemma ReplaceAdmissible(rows: seq<Contact>, i: nat, c: Contact)
    requires Admissible(rows) && i < |rows| && c.id == rows[i].id
    ensures Admissible(rows[i := c]) <==>
      forall j :: 0 <= j < |rows| && j != i ==> rows[j].email != c.email && rows[j].phone != c.phone
  {
    var t := rows[i := c];
    if Admissible(t) {
      forall j | 0 <= j < |rows| && j != i ensures rows[j].email != c.email && rows[j].phone != c.phone {
        assert t[j] == rows[j] && t[i] == c;
        if j < i {
          assert t[j].email != t[i].email && t[j].phone != t[i].phone;
        } else {
          assert t[i].email != t[j].email && t[i].phone != t[j].phone;
        }
      }
    }
  }

  lemma ReplaceAscending(rows: seq<Contact>, i: nat, c: Contact)
    requires Ascending(rows) && i < |rows| && c.id == rows[i].id
    ensures Ascending(rows[i := c])
  {
  }

  /** Removing one row keeps every constraint and rowid order. */
  lemma RemoveKeepsInvariants(rows: seq<Contact>, i: nat)
    requires i < |rows|
    ensures Admissible(rows) ==> Admissible(rows[..i] + rows[i + 1..])
    ensures Ascending(rows) ==> Ascending(rows[..i] + rows[i + 1..])
  {
    var t := rows[..i] + rows[i + 1..];
    assert forall k :: 0 <= k < |t| ==> t[k] == rows[if k < i then k else k + 1];
  }

  /** The effect of `session.add(Contact(name=…, email=…, phone=…))` and
      commit, with rollback on IntegrityError, on the rows `before`: the
      reported outcome and the rows `after`. */
  predicate AddEffect(before: seq<Contact>, after: seq<Contact>, name: string, email: string, phone: string, outcome: Outcome) {
    && (outcome.Added? || outcome == IntegrityError)
    && (outcome.Added? <==> !EmailTaken(before, email) && !PhoneTaken(before, phone))
    && (outcome.Added? ==>
          && outcome.id == NextId(before)
          && !HasId(before, outcome.id)
          && after == before + [Contact(outcome.id, name, email, phone)])
    && (outcome == IntegrityError ==> after == before)
  }

  /** A session on the database: the rows of the contacts table as this
      session sees them, in rowid order. Each program function changes the
      table only through CommitOrRollback. */
  class Session {
    var contacts: seq<Contact>

    ghost predicate Valid()
      reads this
    {
      Admissible(contacts) && Ascending(contacts)
    }

    /** A session on a freshly created, empty table. */
    constructor ()
      ensures Valid() && contacts == []
    {
      contacts := [];
    }

    /** `session.commit()` of the staged table state, followed by
        `session.rollback()` if commit raises IntegrityError: the staged
        state becomes the table exactly when it satisfies the constraints. */
    method CommitOrRollback(staged: seq<Contact>) returns (committed: bool)
      requires Valid() && Ascending(staged)
      modifies this
      ensures Valid()
      ensures committed == Admissible(staged)
      ensures contacts == if committed then staged else old(contacts)
    {
      committed := Admissible(staged);
      if committed {
        contacts := staged;
      }
    }
  }
}
