/** The scripted CRUD example of sqlalchemy_crud_example.py: its own copies
    of add, list-all, email update, delete, and a one-keyword search across
    all three text fields, and the scenario its `main` runs. */
module CrudExample {
  import opened Wrappers
  import opened Text
  import opened Schema
  import ContactManager

  /** Same insertion as main.py: next rowid, or rollback on a duplicate
      email or phone. */
  method AddContact(session: Session, name: string, email: string, phone: string) returns (outcome: Outcome)
    requires session.Valid()
    modifies session
    ensures session.Valid()
    ensures AddEffect(old(session.contacts), session.contacts, name, email, phone, outcome)
  {
    var rows := session.contacts;
    var row := Contact(NextId(rows), name, email, phone);
    NextIdFresh(rows);
    AppendAdmissible(rows, row);
    AppendAscending(rows, row);
    var committed := session.CommitOrRollback(rows + [row]);
    outcome := if committed then Added(row.id) else IntegrityError;
  }

  /** Every row of the table, in rowid order. */
  method GetAllContacts(session: Session) returns (all: seq<Contact>)
    requires session.Valid()
    ensures all == session.contacts
    ensures Ascending(all) && Admissible(all)
  {
    all := session.contacts;
  }

  /** Sets the email unconditionally (an empty string too); a duplicate
      email rolls back. */
  method UpdateContactEmail(session: Session, id: int, newEmail: string) returns (outcome: Outcome)
    requires session.Valid()
    modifies session
    ensures session.Valid()
    ensures !HasId(old(session.contacts), id) ==> outcome == NotFound && session.contacts == old(session.contacts)
    ensures HasId(old(session.contacts), id) ==>
      var rows := old(session.contacts);
      var i := IndexOf(rows, id).value;
      && (outcome == Updated || outcome == IntegrityError)
      && (outcome == Updated <==> forall j :: 0 <= j < |rows| && j != i ==> rows[j].email != newEmail)
      && session.contacts == if outcome == Updated then rows[i := rows[i].(email := newEmail)] else rows
  {
    var rows := session.contacts;
    match IndexOf(rows, id)
    case None =>
      outcome := NotFound;
    case Some(i) =>
      var row := rows[i].(email := newEmail);
      ReplaceAdmissible(rows, i, row);
      ReplaceAscending(rows, i, row);
      var committed := session.CommitOrRollback(rows[i := row]);
      outcome := if committed then Updated else IntegrityError;
  }

  method DeleteContact(session: Session, id: int) returns (outcome: Outcome)
    requires session.Valid()
    modifies session
    ensures session.Valid()
    ensures outcome == if HasId(old(session.contacts), id) then Deleted else NotFound
    ensures session.contacts == WithoutId(old(session.contacts), id)
    ensures |session.contacts| == |old(session.contacts)| - (if outcome == Deleted then 1 else 0)
  {
    var rows := session.contacts;
    match IndexOf(rows, id)
    case None =>
      WithoutAbsentId(rows, id);
      outcome := NotFound;
    case Some(i) =>
      var staged := rows[..i] + rows[i + 1..];
      RemoveKeepsInvariants(rows, i);
      WithoutIdAt(rows, i);
      var committed := session.CommitOrRollback(staged);
      outcome := Deleted;
  }

  predicate MatchesAny(c: Contact, keyword: string) {
    Contains(c.name, keyword) || Contains(c.email, keyword) || Contains(c.phone, keyword)
  }

  /** The WHERE clause name ILIKE '%k%' OR email ILIKE '%k%' OR phone ILIKE '%k%'. */
  function AnyField(keyword: string): Contact -> bool {
    (c: Contact) => MatchesAny(c, keyword)
  }

  method SearchContacts(session: Session, keyword: string) returns (found: seq<Contact>)
    ensures found == Select(session.contacts, AnyField(keyword))
  {
    found := Select(session.contacts, AnyField(keyword));
  }

  /** For a keyword without LIKE wildcards, a row matches exactly when the
      keyword occurs, ignoring ASCII case, in at least one of its fields. */
  lemma MatchesAnyMeans(c: Contact, keyword: string)
    requires NoWildcards(keyword)
    ensures MatchesAny(c, keyword) <==>
      || IsSubstring(Lower(keyword), Lower(c.name))
      || IsSubstring(Lower(keyword), Lower(c.email))
      || IsSubstring(Lower(keyword), Lower(c.phone))
  {
    ContainsIsSubstring(c.name, keyword);
    ContainsIsSubstring(c.email, keyword);
    ContainsIsSubstring(c.phone, keyword);
  }

  /** The empty keyword matches every row. */
  lemma EmptyKeywordMatchesAll(rows: seq<Contact>)
    ensures Select(rows, AnyField("")) == rows
  {
    forall c | c in rows ensures AnyField("")(c) {
      EmptyTermMatches(c.name);
    }
    SelectEverything(rows, AnyField(""));
  }

  /** The two search rules compared: a row found by main.py's search on one
      criterion is also found by this file's keyword search for that term. */
  lemma SingleCriterionWithinKeywordSearch(rows: seq<Contact>, term: string)
    ensures forall c :: c in Select(rows, ContactManager.AllCriteria(term, "", "")) ==> c in Select(rows, AnyField(term))
    ensures forall c :: c in Select(rows, ContactManager.AllCriteria("", term, "")) ==> c in Select(rows, AnyField(term))
    ensures forall c :: c in Select(rows, ContactManager.AllCriteria("", "", term)) ==> c in Select(rows, AnyField(term))
  {
    forall c | c in rows && term == "" ensures AnyField(term)(c) {
      EmptyTermMatches(c.name);
    }
  }

  // The scenario of `main`, on an empty table.

  const Alice: Contact := Contact(1, "Alice Smith", "alice@example.com", "555-1234")
  const Bob: Contact := Contact(2, "Bob Johnson", "bob@example.com", "555-5678")
  const AliceUpdated: Contact := Contact(1, "Alice Smith", "alice.smith@example.com", "555-1234")

  /** Runs the script of `main` and returns what it lists after the adds,
      after the update, the search result for "alice", and the listing after
      the delete. */
  method Scenario() returns (afterAdds: seq<Contact>, afterUpdate: seq<Contact>, found: seq<Contact>, afterDelete: seq<Contact>)
    ensures afterAdds == [Alice, Bob]
    ensures afterUpdate == [AliceUpdated, Bob]
    ensures found == [AliceUpdated]
    ensures afterDelete == [AliceUpdated]
  {
    var session := new Session();
    var first := AddContact(session, "Alice Smith", "alice@example.com", "555-1234");
    assert first == Added(1) && session.contacts == [Alice];
    var second := AddContact(session, "Bob Johnson", "bob@example.com", "555-5678");
    SecondAddCommits();
    assert second == Added(2) && session.contacts == [Alice, Bob];
    afterAdds := GetAllContacts(session);

    var updated := UpdateContactEmail(session, 1, "alice.smith@example.com");
    UpdateCommits();
    assert session.contacts == [AliceUpdated, Bob];
    afterUpdate := GetAllContacts(session);

    found := SearchContacts(session, "alice");
    KeywordSearchExample();

    var removed := DeleteContact(session, 2);
    DeleteLeavesAlice();
    afterDelete := GetAllContacts(session);
  }

  lemma SecondAddCommits()
    ensures !EmailTaken([Alice], "bob@example.com") && !PhoneTaken([Alice], "555-5678")
    ensures NextId([Alice]) == 2
    ensures [Alice] + [Contact(2, "Bob Johnson", "bob@example.com", "555-5678")] == [Alice, Bob]
  {
  }

  lemma UpdateCommits()
    ensures HasId([Alice, Bob], 1) && IndexOf([Alice, Bob], 1) == Some(0)
    ensures forall j :: 0 <= j < 2 && j != 0 ==> [Alice, Bob][j].email != "alice.smith@example.com"
    ensures [Alice, Bob][0 := [Alice, Bob][0].(email := "alice.smith@example.com")] == [AliceUpdated, Bob]
  {
    assert [Alice, Bob][0] == Alice;
  }

  lemma DeleteLeavesAlice()
    ensures WithoutId([AliceUpdated, Bob], 2) == [AliceUpdated]
  {
    WithoutIdAt([AliceUpdated, Bob], 1);
    assert [AliceUpdated, Bob][..1] + [AliceUpdated, Bob][2..] == [AliceUpdated];
  }

  /** Searching "alice" finds Alice (by name) and not Bob (no field of his
      contains an 'i'). */
  lemma KeywordSearchExample()
    ensures Select([AliceUpdated, Bob], AnyField("alice")) == [AliceUpdated]
  {
    AliceMatches();
    BobMisses();
    assert [AliceUpdated, Bob][1..] == [Bob];
    assert Select([Bob], AnyField("alice")) == [];
  }

  lemma AliceMatches()
    ensures MatchesAny(AliceUpdated, "alice")
  {
    assert Lower("alice") == "alice";
    assert Lower("Alice Smith")[..5] == "alice";
    NameHitMatches(AliceUpdated, "alice");
  }

  lemma BobMisses()
    ensures !MatchesAny(Bob, "alice")
  {
    assert 'i' !in "Bob Johnson" && 'I' !in "Bob Johnson";
    assert 'i' !in "bob@example.com" && 'I' !in "bob@example.com";
    assert 'i' !in "555-5678" && 'I' !in "555-5678";
    MissingLetterMisses(Bob, "alice", 2);
  }

  /** A keyword found in the name makes the row match. */
  lemma NameHitMatches(c: Contact, keyword: string)
    requires NoWildcards(keyword) && IsPrefix(Lower(keyword), Lower(c.name))
    ensures MatchesAny(c, keyword)
  {
    MatchesAnyMeans(c, keyword);
  }

  /** A keyword with a letter that no field holds, in either case, matches nothing. */
  lemma MissingLetterMisses(c: Contact, keyword: string, j: nat)
    requires NoWildcards(keyword) && j < |keyword| && 'a' <= keyword[j] <= 'z'
    requires var up := (keyword[j] as int - 32) as char;
      && keyword[j] !in c.name && up !in c.name
      && keyword[j] !in c.email && up !in c.email
      && keyword[j] !in c.phone && up !in c.phone
    ensures !MatchesAny(c, keyword)
  {
    MatchesAnyMeans(c, keyword);
    var k := Lower(keyword);
    assert k[j] == keyword[j];
    LowerLacks(c.name, keyword[j]);
    LowerLacks(c.email, keyword[j]);
    LowerLacks(c.phone, keyword[j]);
    MissingCharNoMatch(k, Lower(c.name), j);
    MissingCharNoMatch(k, Lower(c.email), j);
    MissingCharNoMatch(k, Lower(c.phone), j);
  }
}
