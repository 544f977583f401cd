# Contacts table: a Dafny model

This project models the contact manager of `python3-cms`: one relational
table `contacts(id, name, email, phone)` and the two programs that use it.

- `main.py` is a command-line tool. It reads a configuration file, then runs one of
  five commands: add, list a page, update email and/or phone, delete, and search.
- `sqlalchemy_crud_example.py` is a script. It has its own add, list-all,
  email update, delete and one-keyword search, and runs a fixed scenario.

The table (`Schema.TableName`, `contacts`) is modelled as a `Schema.Session`: a class whose field `contacts` is
the sequence of rows the session sees, in rowid order. The invariant
`Session.Valid()` has two parts:

- `Admissible`: the primary-key and UNIQUE constraints of `models_sqlalchemy.py`.
  No two rows share an id, an email or a phone.
- `Ascending`: ids increase along the table.

Every write goes through `CommitOrRollback(staged)`. This is `session.commit()`
followed by `session.rollback()` when the commit raises `IntegrityError`. The
staged state becomes the table exactly when it satisfies the constraints;
otherwise the table is unchanged.

Files:

- `wrappers.dfy`: `Option`.
- `text.dfy`: what the queries and `__repr__` rely on:
  - SQLite's ASCII-only `lower()`;
  - the SQL `LIKE` operator, with `%` and `_` wildcards and no escape character;
  - SQLAlchemy's `ilike` on SQLite, which is `lower(x) LIKE lower(y)`;
  - substring search, and decimal rendering of integers.
- `schema.dfy` (`models_sqlalchemy.py`, and the identical class in
  `sqlalchemy_crud_example.py`): the `Contact` row, `__repr__`, the constraints,
  the WHERE-clause filter `Select`, lookup by id, rowid allocation, and `Session`.
- `contact_manager.dfy` (`main.py`): `read_config`, the five commands, and the
  dispatch in `main`, including its argument guards.
- `crud_example.dfy` (`sqlalchemy_crud_example.py`): its operations and its scenario.

Modelling choices:

- **Absent arguments.** An absent optional argument (`None`) and an empty
  string are both the empty string. The source only tests their truthiness,
  so the two behave the same.
- **Row order.** No query has an `ORDER BY`. The model fixes row order as
  storage order. With the rowid rule below, storage order is both insertion
  order and ascending id order.
- **Id allocation.** A new row gets SQLite's default rowid: one more than the
  largest id in use, or 1 on an empty table (`Schema.NextId`). The column is
  `autoincrement=True`, but the table does not set SQLite's `AUTOINCREMENT`
  option. So the id of a deleted last row can be given out again. The contracts
  promise that each new id is fresh for the current rows, and name the exact
  value only so that the scenario can be computed.
- **Search.** A search is the LIKE pattern `%term%`. The term is not escaped,
  so `%` and `_` inside it act as wildcards (`Text.UnderscoreInTermIsWildcard`).
  For wildcard-free terms, `Text.ContainsIsSubstring` proves that the search is
  ASCII case-insensitive substring search.
- **Log level.** Python's `str.upper()` is modelled only as far as it can
  produce ASCII letters: `a`-`z`, dotless `ı` and long `ſ`. Other characters
  keep their value. No other character can turn a string into one of the five
  level names, so the validity test agrees with Python's.
- **Configuration input.** The configuration is given as an already-parsed
  value: the `[DEFAULT]` options plus the options of each section, with option
  names lower-cased as configparser stores them. `config.get` looks in the
  section first, then in `[DEFAULT]`, then uses the fallback.

Further facts about the code that the model follows:

- Email and phone are UNIQUE.
- There is no email or phone format validation.
- Ids can be reused after deletion.
- An absent id on update or delete is reported, not raised.
- The "at least one field" and "at least one criterion" checks live in `main`,
  not in the operations.
- Listing does not report a total count.

## Model

| member | source | states |
|---|---|---|
| `Schema.ReprRoundTrip` | models_sqlalchemy.py:19-20 | `__repr__` renders all four fields in the order id, name, email, phone; when no text field holds a quote, parsing the rendering gives the row back |
| `Schema.ReprAmbiguousWithQuotes` | sqlalchemy_crud_example.py:30-31 | the same rendering is ambiguous once a field contains a quote: two different rows render identically |
| `Schema.Repr` | models_sqlalchemy.py:19-20 | the rendering starts with `<Contact(id=`, the decimal id and `, name='`, ends with `')>`, and is exactly as long as its fixed parts and the four fields |
| `Text.IntRoundTrip` | models_sqlalchemy.py:20 | the decimal rendering of the id parses back to the id |
| `Schema.MaxId` | models_sqlalchemy.py:14 | the largest id of a non-empty table: no id exceeds it and some row has it |
| `Schema.NextId` | models_sqlalchemy.py:14 | SQLite's rowid choice: 1 on an empty table, otherwise one more than an id in use, and larger than every id in use |
| `Schema.NextIdFresh` | models_sqlalchemy.py:14 | the id given to an inserted row is larger than every id in use, so it is fresh |
| `Schema.IndexOf` | main.py:155-156 | `filter(Contact.id == id).one_or_none()`: the position of the first row with that id, or none exactly when no row has it |
| `Schema.Select` | main.py:217 | a filtered query returns exactly the table rows that pass the filter, never more rows than the table |
| `Schema.SelectAppend` | main.py:217 | filtering keeps table order (it distributes over concatenation) |
| `Schema.SelectThenSelect` | main.py:210-216 | chaining `query.filter` twice is filtering by the conjunction |
| `Schema.AppendAdmissible` | models_sqlalchemy.py:16-17 | appending a row with a fresh id satisfies the constraints exactly when its email and its phone are both unused |
| `Schema.AppendAscending` | models_sqlalchemy.py:14 | a row whose id exceeds all ids in use goes after them, keeping rowid order |
| `Schema.ReplaceAdmissible` | models_sqlalchemy.py:16-17 | rewriting one row in place satisfies the constraints exactly when no other row holds its new email or phone |
| `Schema.ReplaceAscending` | models_sqlalchemy.py:14 | rewriting a row without changing its id keeps rowid order |
| `Schema.RemoveKeepsInvariants` | models_sqlalchemy.py:14-17 | removing a row never violates a constraint or rowid order |
| `Schema.WithoutIdAt` | main.py:185-191 | deleting the row found by id removes exactly that row and keeps all others, in order |
| `Schema.WithoutAbsentId` | main.py:185-189 | dropping an id no row has leaves the table unchanged |
| `Schema.WithoutIdTwice` | sqlalchemy_crud_example.py:155-161 | deleting the same id twice is deleting it once: the second delete is a no-op |
| `Schema.Session.constructor` | models_sqlalchemy.py:12 | a session on the freshly created, empty `contacts` table, satisfying the invariant |
| `Schema.Session.CommitOrRollback` | main.py:86-91 | commit-or-rollback: the staged state becomes the table exactly when it satisfies the constraints, otherwise nothing changes |
| `Text.LikeAnything` | main.py:212 | the LIKE wildcard `%` matches every text |
| `Text.LikeInfix` | main.py:212 | the pattern `%k%` with a wildcard-free `k` matches exactly the texts that contain `k` |
| `Text.IsSubstringAt` | main.py:212 | the recursive substring test agrees with "k occurs at some position of s" |
| `Text.ContainsIsSubstring` | main.py:212-216 | `ilike(f"%{term}%")` with a wildcard-free term is ASCII case-insensitive substring search |
| `Text.EmptyTermMatches` | sqlalchemy_crud_example.py:183-185 | the empty term builds the pattern `%%`, which matches every value |
| `Text.UnderscoreInTermIsWildcard` | main.py:212 | terms are not escaped: `J_hn` finds `John` |
| `ContactManager.ReadConfig` | main.py:27-47 | a missing `database` section fails first, then a missing `logging` section, each with its own message; otherwise values come from the section, then [DEFAULT], then the fallback; the log level is always valid, kept as written when valid and `INFO` otherwise |
| `ContactManager.GetOption` | main.py:37-39 | `config.get(section, option, fallback=…)`: the section's value if it has the option, else the `[DEFAULT]` value, else the fallback |
| `ContactManager.ReadConfigDefaults` | main.py:37-39 | empty sections give `sqlite:///contacts.db`, `contact_manager.log` and `INFO` |
| `ContactManager.LowerCaseLevelKept` | main.py:42-47 | a valid level is returned in its original case (`debug` stays `debug`) |
| `ContactManager.UnknownLevelReplaced` | main.py:42-45 | an unknown level becomes `INFO` |
| `ContactManager.AddContact` | main.py:84-97 | (`Schema.AddEffect`) adds one row with a fresh id (and keeps every old row) exactly when its email and phone are unused; otherwise the rollback leaves the table exactly as before |
| `ContactManager.Page` | main.py:110 | offset `(page-1)*per_page`, limit `per_page`: at most `per_page` rows, the contiguous run starting at the offset, empty when the offset is at or past the end |
| `ContactManager.PagesTile` | main.py:110 | pages 1 to n, concatenated, are the first `n*per_page` rows: every row appears once, in order |
| `ContactManager.AllPagesListEverything` | main.py:110 | paging through enough pages lists the whole table |
| `ContactManager.ListContacts` | main.py:99-113 | shows the page computed by the query; `show_all` has no effect; the table is not changed |
| `ContactManager.Patched` | main.py:160-163 | an update never changes id or name; a non-empty argument replaces its field and an empty one leaves it as it was; with both empty the row is unchanged |
| `ContactManager.UpdateContact` | main.py:154-170 | (`ContactManager.UpdateEffect`) an absent id changes nothing; otherwise email and phone are overwritten only by non-empty arguments, and the result commits exactly when no other row holds the new email or phone, else it rolls back |
| `ContactManager.DeleteContact` | main.py:184-193 | removes exactly the rows with the id (one row when present); an absent id is reported and changes nothing |
| `ContactManager.SearchContacts` | main.py:209-221 | filters step by step and returns, in table order, exactly the rows that match every non-empty criterion |
| `ContactManager.MatchesAllMeans` | main.py:211-216 | a row matches exactly when every non-empty, wildcard-free criterion is a case-insensitive substring of its field |
| `ContactManager.NoCriteriaSelectsAll` | main.py:210-217 | empty criteria add no filter |
| `ContactManager.Run` | main.py:262-296 | no command shows help; a configuration error stops before the table; add and update report their outcome and change the table exactly as `AddEffect` and `UpdateEffect` say; list, delete and search give exactly their operation's result; update without email and phone, and search without criteria, print their message and never reach the table |
| `CrudExample.AddContact` | sqlalchemy_crud_example.py:68-81 | inserts one row with a fresh id, or rolls back on a duplicate email or phone, leaving the table unchanged |
| `CrudExample.GetAllContacts` | sqlalchemy_crud_example.py:93-96 | returns every row of the table, in rowid order |
| `CrudExample.UpdateContactEmail` | sqlalchemy_crud_example.py:128-145 | an absent id changes nothing; otherwise sets the email unconditionally (even empty) and keeps id, name and phone; commits exactly when no other row holds that email, else rolls back |
| `CrudExample.DeleteContact` | sqlalchemy_crud_example.py:155-168 | removes exactly the row with the id; an absent id leaves the table unchanged |
| `CrudExample.SearchContacts` | sqlalchemy_crud_example.py:181-188 | returns, in table order, the rows where the keyword matches name OR email OR phone |
| `CrudExample.MatchesAnyMeans` | sqlalchemy_crud_example.py:182-186 | for a wildcard-free keyword, a row matches exactly when the keyword is a case-insensitive substring of at least one field |
| `CrudExample.EmptyKeywordMatchesAll` | sqlalchemy_crud_example.py:182-186 | the empty keyword matches every row |
| `CrudExample.SingleCriterionWithinKeywordSearch` | sqlalchemy_crud_example.py:170-188 | the two search rules compared: a row `main.py` finds with one criterion is also found by the keyword search for that term |
| `CrudExample.KeywordSearchExample` | sqlalchemy_crud_example.py:215-216 | searching `alice` finds Alice and not Bob |
| `CrudExample.Scenario` | sqlalchemy_crud_example.py:199-225 | on an empty table: Alice and Bob get ids 1 and 2; Alice's email becomes `alice.smith@example.com`; `alice` finds only Alice; deleting 2 leaves only Alice |

## Left out

- Console output is not modelled. This covers `print`, `display_contacts_rich`,
  `display_contacts`, and the rich and tabulate tables. Their messages are
  represented only by the returned outcome, page or reply.
- Logging is not modelled: `setup_logging`, the module-level `basicConfig` and
  every `logging.*` call. They are side effects on an external library.
- Engine and CLI plumbing is not modelled: `setup_database`, `create_tables`,
  closing the session and disposing the engine, and the argparse grammar.
  `Run` takes the parsed command as a datatype, and a `Session` on the database.
- Reading `config.ini` from disk, and configparser's parsing and
  `%`-interpolation, are not modelled. `ReadConfig` takes the parsed file.
- Exceptions other than `IntegrityError` are not modelled. These are the
  `except Exception` branches, and the `[]` that `get_all_contacts` and
  `search_contacts` return on error. Nothing in the model can fail that way.
- NULL values are not modelled. Strings are never null, and both programs
  always pass strings. So the NOT NULL constraints of `models_sqlalchemy.py:15-17`
  hold by type, and the `id=None` rendering of a row not yet flushed cannot arise.
- ContactManager.Page: `page` and `per_page` must be at least 1. What the
  engine does with a negative offset or limit is not visible in the source.
- Schema.NextId: the 64-bit limit on rowids is not modelled. Neither is
  SQLite's random choice of id once the largest possible rowid is in use.
- ContactManager.UpperChar: this is not the full Unicode `str.upper()`.
  Multi-character expansions such as `ß` to `SS` are left out. They cannot
  make a valid level name.
- `ContactNotFoundError` is imported but never raised. The `exceptions` module
  is not part of this model.
- Email and phone format validation does not exist in the code, so none is modelled.
- The scenario is modelled starting from an empty table. On a second run over
  the same `contacts.db`, the table starts with Alice alone (id 1, email
  `alice.smith@example.com`, phone `555-1234`). Alice's add then rolls back,
  because her phone is taken. Bob's add commits with id 2, since his email and
  phone are free. This second run is not modelled.
