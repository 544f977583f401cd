/** The command-line contact manager of main.py: reading its configuration,
    the five commands on the contacts table, and the argument checks that
    decide whether a command reaches the table at all. */
module ContactManager {
  import opened Wrappers
  import opened Text
  import opened Schema

  // read_config

  /** A parsed configuration file: the options of its [DEFAULT] section and
      those of every other section, option names already lower-cased as the
      parser stores them. */
  datatype ConfigFile = ConfigFile(defaults: map<string, string>, sections: map<string, map<string, string>>)

  datatype Settings = Settings(dbUrl: string, logFile: string, logLevel: string)

  /** The settings, or the message of the ValueError raised instead. */
  datatype ConfigResult = Loaded(settings: Settings) | ConfigError(message: string)

  const DefaultDbUrl: string := "sqlite:///contacts.db"
  const DefaultLogFile: string := "contact_manager.log"
  const DefaultLogLevel: string := "INFO"
  const ValidLevels: seq<string> := ["DEBUG", "INFO", "WARNING", "ERROR", "CRITICAL"]
  const MissingDatabase: string := "Missing 'database' section in config.ini."
  const MissingLogging: string := "Missing 'logging' section in config.ini."

  /** `config.get(section, option, fallback=…)`: the section's own value,
      else the [DEFAULT] value, else the fallback. */
  function GetOption(cfg: ConfigFile, section: string, option: string, fallback: string): (v: string)
    requires section in cfg.sections
    ensures option in cfg.sections[section] ==> v == cfg.sections[section][option]
    ensures option !in cfg.sections[section] && option in cfg.defaults ==> v == cfg.defaults[option]
    ensures option !in cfg.sections[section] && option !in cfg.defaults ==> v == fallback
  {
    if option in cfg.sections[section] then cfg.sections[section][option]
    else if option in cfg.defaults then cfg.defaults[option]
    else fallback
  }

  /** Python's str.upper() as far as it can produce ASCII letters: a-z, and
      the two non-ASCII letters whose upper case is one ASCII letter
      (dotless i and long s). */
  function UpperChar(ch: char): char {
    if 'a' <= ch <= 'z' then (ch as int - 32) as char
    else if ch == 'ı' then 'I'
    else if ch == 'ſ' then 'S'
    else ch
  }

  function Upper(s: string): (r: string)
    ensures |r| == |s|
  {
    seq(|s|, i requires 0 <= i < |s| => UpperChar(s[i]))
  }

  predicate IsValidLevel(level: string) {
    Upper(level) in ValidLevels
  }

  function ReadConfig(cfg: ConfigFile): (r: ConfigResult)
    ensures "database" !in cfg.sections ==> r == ConfigError(MissingDatabase)
    ensures "database" in cfg.sections && "logging" !in cfg.sections ==> r == ConfigError(MissingLogging)
    ensures r.Loaded? <==> "database" in cfg.sections && "logging" in cfg.sections
    ensures r.Loaded? ==> IsValidLevel(r.settings.logLevel)
    ensures r.Loaded? ==>
      var raw := GetOption(cfg, "logging", "log_level", DefaultLogLevel);
      && (IsValidLevel(raw) ==> r.settings.logLevel == raw)
      && (!IsValidLevel(raw) ==> r.settings.logLevel == DefaultLogLevel)
    ensures r.Loaded? ==> r.settings.dbUrl == GetOption(cfg, "database", "db_url", DefaultDbUrl)
    ensures r.Loaded? ==> r.settings.logFile == GetOption(cfg, "logging", "log_file", DefaultLogFile)
  {
    if "database" !in cfg.sections then ConfigError(MissingDatabase)
    else if "logging" !in cfg.sections then ConfigError(MissingLogging)
    else
      var dbUrl := GetOption(cfg, "database", "db_url", DefaultDbUrl);
      var logFile := GetOption(cfg, "logging", "log_file", DefaultLogFile);
      var logLevel := GetOption(cfg, "logging", "log_level", DefaultLogLevel);
      assert Upper(DefaultLogLevel) == DefaultLogLevel;
      Loaded(Settings(dbUrl, logFile, if IsValidLevel(logLevel) then logLevel else DefaultLogLevel))
  }

  /** Sections with no options and no [DEFAULT] values give the three defaults. */
  lemma ReadConfigDefaults(cfg: ConfigFile)
    requires cfg.defaults == map[]
    requires "database" in cfg.sections && cfg.sections["database"] == map[]
    requires "logging" in cfg.sections && cfg.sections["logging"] == map[]
    ensures ReadConfig(cfg) == Loaded(Settings(DefaultDbUrl, DefaultLogFile, DefaultLogLevel))
  {
  }

  /** A valid level keeps the case it was written in. */
  lemma LowerCaseLevelKept()
    ensures ReadConfig(ConfigFile(map[], map["database" := map[], "logging" := map["log_level" := "debug"]]))
      == Loaded(Settings(DefaultDbUrl, DefaultLogFile, "debug"))
  {
    assert Upper("debug") == "DEBUG";
  }

  /** An unknown level is replaced by INFO. */
  lemma UnknownLevelReplaced()
    ensures ReadConfig(ConfigFile(map[], map["database" := map[], "logging" := map["log_level" := "verbose"]]))
      == Loaded(Settings(DefaultDbUrl, DefaultLogFile, DefaultLogLevel))
  {
    assert Upper("verbose") == "VERBOSE";
    assert Upper(DefaultLogLevel) == DefaultLogLevel;
  }

  // add_contact

  /** Inserts a row with the next rowid; an email or phone already in use
      makes the commit fail and the table stays as it was. */
  method AddContact(session: Session, name: string, email: string, phone: string) returns (outcome: Outcome)
    requires session.Valid()
    modifies session
    ensures session.Valid()
    ensures AddEffect(old(session.contacts), session.contacts, name, email, phone, outcome)
  {
    var rows := session.contacts;
    var row := Contact(NextId(rows), name, email, phone);
    NextIdFresh(rows);
    AppendAdmissible(rows, row);
    AppendAscending(rows, row);
    var committed := session.CommitOrRollback(rows + [row]);
    outcome := if committed then Added(row.id) else IntegrityError;
  }

  // list_contacts

  function Min(a: int, b: int): int {
    if a <= b then a else b
  }

  /** The number of rows skipped before a page. */
  function Offset(page: int, perPage: int): nat
    requires page >= 1 && perPage >= 1
  {
    (page - 1) * perPage
  }

  /** `query(Contact).offset((page - 1) * per_page).limit(per_page).all()`. */
  function Page(rows: seq<Contact>, page: int, perPage: int): (r: seq<Contact>)
    requires page >= 1 && perPage >= 1
    ensures |r| <= perPage
    ensures |r| == if Offset(page, perPage) >= |rows| then 0 else Min(perPage, |rows| - Offset(page, perPage))
    ensures forall j :: 0 <= j < |r| ==> r[j] == rows[Offset(page, perPage) + j]
  {
    var offset := Offset(page, perPage);
    if offset >= |rows| then [] else rows[offset..Min(offset + perPage, |rows|)]
  }

  /** Pages 1 to n, one after the other. */
  function FirstPages(rows: seq<Contact>, perPage: int, n: nat): seq<Contact>
    requires perPage >= 1
  {
    if n == 0 then [] else FirstPages(rows, perPage, n - 1) + Page(rows, n, perPage)
  }

  /** Consecutive pages tile the table: pages 1 to n are its first
      n * perPage rows, each row once and in order. */
  lemma {:induction false} PagesTile(rows: seq<Contact>, perPage: int, n: nat)
    requires perPage >= 1
    ensures FirstPages(rows, perPage, n) == rows[..Min(n * perPage, |rows|)]
  {
    if n > 0 {
      PagesTile(rows, perPage, n - 1);
      var lo := Min((n - 1) * perPage, |rows|);
      var hi := Min(n * perPage, |rows|);
      assert Offset(n, perPage) == (n - 1) * perPage;
      assert n * perPage == (n - 1) * perPage + perPage;
      var p := Page(rows, n, perPage);
      assert |p| == hi - lo;
      assert rows[..hi] == rows[..lo] + rows[lo..hi];
      assert p == rows[lo..hi];
    }
  }

  /** Paging through as many pages as there are rows lists the whole table. */
  lemma AllPagesListEverything(rows: seq<Contact>, perPage: int)
    requires perPage >= 1
    ensures FirstPages(rows, perPage, |rows|) == rows
  {
    PagesTile(rows, perPage, |rows|);
    assert |rows| * perPage >= |rows|;
  }

  /** The page shown; an empty page is "No contacts found on this page.".
      The `show_all` flag has no effect on the query. */
  method ListContacts(session: Session, showAll: bool, page: int, perPage: int) returns (shown: seq<Contact>)
    requires page >= 1 && perPage >= 1
    ensures shown == Page(session.contacts, page, perPage)
  {
    shown := Page(session.contacts, page, perPage);
  }

  // update_contact

  /** The row after `if new_email: contact.email = new_email` and
      `if new_phone: contact.phone = new_phone`: id and name never change,
      and an empty argument leaves its field as it was. */
  function Patched(c: Contact, newEmail: string, newPhone: string): (r: Contact)
    ensures r.id == c.id && r.name == c.name
    ensures newEmail != "" ==> r.email == newEmail
    ensures newEmail == "" ==> r.email == c.email
    ensures newPhone != "" ==> r.phone == newPhone
    ensures newPhone == "" ==> r.phone == c.phone
    ensures newEmail == "" && newPhone == "" ==> r == c
  {
    c.(email := if newEmail != "" then newEmail else c.email,
       phone := if newPhone != "" then newPhone else c.phone)
  }

  /** The effect of `update_contact` on the rows `before`: the reported
      outcome and the rows `after`. */
  predicate UpdateEffect(before: seq<Contact>, after: seq<Contact>, id: int, newEmail: string, newPhone: string, outcome: Outcome) {
    if !HasId(before, id) then outcome == NotFound && after == before
    else
      var i := IndexOf(before, id).value;
      var row := Patched(before[i], newEmail, newPhone);
      && (outcome == Updated || outcome == IntegrityError)
      && (outcome == Updated <==>
            forall j :: 0 <= j < |before| && j != i ==> before[j].email != row.email && before[j].phone != row.phone)
      && after == if outcome == Updated then before[i := row] else before
  }

  method UpdateContact(session: Session, id: int, newEmail: string, newPhone: string) returns (outcome: Outcome)
    requires session.Valid()
    modifies session
    ensures session.Valid()
    ensures UpdateEffect(old(session.contacts), session.contacts, id, newEmail, newPhone, outcome)
  {
    var rows := session.contacts;
    match IndexOf(rows, id)
    case None =>
      outcome := NotFound;
    case Some(i) =>
      var row := Patched(rows[i], newEmail, newPhone);
      ReplaceAdmissible(rows, i, row);
      ReplaceAscending(rows, i, row);
      var committed := session.CommitOrRollback(rows[i := row]);
      outcome := if committed then Updated else IntegrityError;
  }

  // delete_contact

  method DeleteContact(session: Session, id: int) returns (outcome: Outcome)
    requires session.Valid()
    modifies session
    ensures session.Valid()
    ensures outcome == if HasId(old(session.contacts), id) then Deleted else NotFound
    ensures session.contacts == WithoutId(old(session.contacts), id)
    ensures |session.contacts| == |old(session.contacts)| - (if outcome == Deleted then 1 else 0)
  {
    var rows := session.contacts;
    match IndexOf(rows, id)
    case None =>
      WithoutAbsentId(rows, id);
      outcome := NotFound;
    case Some(i) =>
      var staged := rows[..i] + rows[i + 1..];
      RemoveKeepsInvariants(rows, i);
      WithoutIdAt(rows, i);
      var committed := session.CommitOrRollback(staged);
      outcome := Deleted;
  }

  // search_contacts

  /** `if term:` adds the filter `field.ilike(f"%{term}%")`; an empty term adds none. */
  predicate FieldMatches(value: string, term: string) {
    term == "" || Contains(value, term)
  }

  predicate MatchesAll(c: Contact, name: string, email: string, phone: string) {
    FieldMatches(c.name, name) && FieldMatches(c.email, email) && FieldMatches(c.phone, phone)
  }

  /** The combined WHERE clause of a search: every supplied criterion holds. */
  function AllCriteria(name: string, email: string, phone: string): Contact -> bool {
    (c: Contact) => MatchesAll(c, name, email, phone)
  }

  function NameContains(term: string): Contact -> bool {
    (c: Contact) => Contains(c.name, term)
  }

  function EmailContains(term: string): Contact -> bool {
    (c: Contact) => Contains(c.email, term)
  }

  function PhoneContains(term: string): Contact -> bool {
    (c: Contact) => Contains(c.phone, term)
  }

  /** Builds the query filter by filter, as the source does, and returns the
      rows of the combined AND filter; an empty result is "No contacts found
      matching the criteria.". */
  method SearchContacts(session: Session, name: string, email: string, phone: string) returns (found: seq<Contact>)
    ensures found == Select(session.contacts, AllCriteria(name, email, phone))
  {
    var rows := session.contacts;
    var query := rows;
    if name != "" {
      query := Select(query, NameContains(name));
      SelectSame(rows, NameContains(name), AllCriteria(name, "", ""));
    } else {
      SelectEverything(rows, AllCriteria(name, "", ""));
    }
    assert query == Select(rows, AllCriteria(name, "", ""));
    if email != "" {
      query := Select(query, EmailContains(email));
      SelectThenSelect(rows, AllCriteria(name, "", ""), EmailContains(email), AllCriteria(name, email, ""));
    } else {
      SelectSame(rows, AllCriteria(name, "", ""), AllCriteria(name, email, ""));
    }
    assert query == Select(rows, AllCriteria(name, email, ""));
    if phone != "" {
      query := Select(query, PhoneContains(phone));
      SelectThenSelect(rows, AllCriteria(name, email, ""), PhoneContains(phone), AllCriteria(name, email, phone));
    } else {
      SelectSame(rows, AllCriteria(name, email, ""), AllCriteria(name, email, phone));
    }
    found := query;
  }

  /** For criteria without LIKE wildcards, a row matches exactly when every
      non-empty criterion occurs, ignoring ASCII case, in its field. */
  lemma MatchesAllMeans(c: Contact, name: string, email: string, phone: string)
    requires NoWildcards(name) && NoWildcards(email) && NoWildcards(phone)
    ensures MatchesAll(c, name, email, phone) <==>
      && (name == "" || IsSubstring(Lower(name), Lower(c.name)))
      && (email == "" || IsSubstring(Lower(email), Lower(c.email)))
      && (phone == "" || IsSubstring(Lower(phone), Lower(c.phone)))
  {
    ContainsIsSubstring(c.name, name);
    ContainsIsSubstring(c.email, email);
    ContainsIsSubstring(c.phone, phone);
  }

  /** Empty criteria do not filter: with none the search would return the whole table. */
  lemma NoCriteriaSelectsAll(rows: seq<Contact>)
    ensures Select(rows, AllCriteria("", "", "")) == rows
  {
    SelectEverything(rows, AllCriteria("", "", ""));
  }

  // main: the command dispatch after argument parsing

  datatype Command =
    | AddCommand(name: string, email: string, phone: string)
    | ListCommand(showAll: bool, page: int, perPage: int)
    | UpdateCommand(id: int, email: string, phone: string)
    | DeleteCommand(id: int)
    | SearchCommand(name: string, email: string, phone: string)

  /** What `main` ends with: help text, a configuration error, the report of a
      write, a page or search result, or one of the two usage messages. */
  datatype Reply =
    | Help
    | BadConfig(message: string)
    | Wrote(outcome: Outcome)
    | Listed(rows: seq<Contact>)
    | Searched(rows: seq<Contact>)
    | MissingUpdateField
    | MissingCriteria

  predicate HasUpdateField(email: string, phone: string) {
    email != "" || phone != ""
  }

  predicate HasCriteria(name: string, email: string, phone: string) {
    name != "" || email != "" || phone != ""
  }

  /** `main` after parsing: no command shows help; a bad configuration stops
      before the table is touched; update needs a field and search needs a
      criterion before they reach the table. */
  method Run(command: Option<Command>, cfg: ConfigFile, session: Session) returns (reply: Reply)
    requires session.Valid()
    requires command.Some? && command.value.ListCommand? ==> command.value.page >= 1 && command.value.perPage >= 1
    modifies session
    ensures session.Valid()
    ensures command.None? ==> reply == Help
    ensures command.Some? && ReadConfig(cfg).ConfigError? ==> reply == BadConfig(ReadConfig(cfg).message)
    ensures !reply.Wrote? ==> session.contacts == old(session.contacts)
    ensures command.Some? && ReadConfig(cfg).Loaded? ==>
      match command.value
      case AddCommand(name, email, phone) =>
        reply.Wrote? && AddEffect(old(session.contacts), session.contacts, name, email, phone, reply.outcome)
      case ListCommand(_, page, perPage) => reply == Listed(Page(old(session.contacts), page, perPage))
      case UpdateCommand(id, email, phone) =>
        if HasUpdateField(email, phone)
        then reply.Wrote? && UpdateEffect(old(session.contacts), session.contacts, id, email, phone, reply.outcome)
        else reply == MissingUpdateField
      case DeleteCommand(id) =>
        reply == Wrote(if HasId(old(session.contacts), id) then Deleted else NotFound)
        && session.contacts == WithoutId(old(session.contacts), id)
      case SearchCommand(name, email, phone) =>
        if HasCriteria(name, email, phone)
        then reply == Searched(Select(old(session.contacts), AllCriteria(name, email, phone)))
        else reply == MissingCriteria
  {
    if command.None? {
      return Help;
    }
    var config := ReadConfig(cfg);
    if config.ConfigError? {
      return BadConfig(config.message);
    }
    match command.value
    case AddCommand(name, email, phone) =>
      var outcome := AddContact(session, name, email, phone);
      reply := Wrote(outcome);
    case ListCommand(showAll, page, perPage) =>
      var shown := ListContacts(session, showAll, page, perPage);
      reply := Listed(shown);
    case UpdateCommand(id, email, phone) =>
      if !HasUpdateField(email, phone) {
        reply := MissingUpdateField;
      } else {
        var outcome := UpdateContact(session, id, email, phone);
        reply := Wrote(outcome);
      }
    case DeleteCommand(id) =>
      var outcome := DeleteContact(session, id);
      reply := Wrote(outcome);
    case SearchCommand(name, email, phone) =>
      if !HasCriteria(name, email, phone) {
        reply := MissingCriteria;
      } else {
        var found := SearchContacts(session, name, email, phone);
        reply := Searched(found);
      }
  }
}
