/** The accounts of the POST server: the form a browser posts, the user table in memory and
    in the database, and workers that register and log in side by side. */
module Accounts {
  import opened CStrings
  import HttpMachine
  import HttpMessage

  const FIELD_SIZE: nat := 100         // name[100], password[100]
  const SQL_SIZE: nat := 200           // sql_insert

  // ---- the form --------------------------------------------------------------------------

  /** Undefined stands for a read past the body's terminating NUL or a store past an array. */
  datatype Form = Undefined | Form(name: string, password: string)

  /** The name runs from the sixth byte to the first '&', the password from ten bytes after it. */
  function ParseForm(s: string): Form
  {
    if |s| < 5 then Undefined
    else
      var k := 5 + Find(s[5..], '&');
      if k + 10 > |s| || k - 5 >= FIELD_SIZE || |s| - (k + 10) >= FIELD_SIZE then Undefined
      else Form(s[5..k], s[k + 10..])
  }

  function PrintForm(name: string, password: string): string
  {
    "user=" + name + "&password=" + password
  }

  /** `s` holds the two fields with any five bytes before them and any nine after the '&'. */
  predicate Holds(s: string, name: string, password: string)
  {
    && |s| == |name| + |password| + 15
    && s[5..5 + |name|] == name && s[5 + |name|] == '&' && s[15 + |name|..] == password
  }

  predicate Fits(name: string, password: string)
  {
    '&' !in name && |name| < FIELD_SIZE && |password| < FIELD_SIZE
  }

  /** The bodies that are read as this name and password. */
  lemma FormExactly(s: string, name: string, password: string)
    ensures ParseForm(s) == Form(name, password) <==> Holds(s, name, password) && Fits(name, password)
  {
    if Holds(s, name, password) && Fits(name, password) {
      assert s[5..][..|name|] == name;
      FindUnique(s[5..], '&', |name|);
    }
    if ParseForm(s) == Form(name, password) {
      var n := Find(s[5..], '&');
      assert s[5..][..n] == name;
      assert |name| == n;
    }
  }

  lemma PrintedHolds(name: string, password: string)
    ensures Holds(PrintForm(name, password), name, password)
  {
    var s := PrintForm(name, password);
    assert s == "user=" + (name + ("&password=" + password));
    assert s[5..] == name + ("&password=" + password);
  }

  /** Reading undoes printing exactly for names without '&' that fit, as passwords must. */
  lemma FormRoundTrip(name: string, password: string)
    ensures ParseForm(PrintForm(name, password)) == Form(name, password) <==> Fits(name, password)
  {
    PrintedHolds(name, password);
    FormExactly(PrintForm(name, password), name, password);
  }

  /** The character at `i`, the terminating NUL from the end on. */
  function At(s: string, i: nat): char { if i < |s| then s[i] else NUL }

  /** The first copy loop: the name and where its '&' is, or nothing where C has no result. */
  method CopyName(text: string) returns (ok: bool, name: string, mark: nat)
    requires NUL !in text
    ensures ok <==> |text| >= 5 && 5 + Find(text[5..], '&') < |text| && Find(text[5..], '&') < FIELD_SIZE
    ensures ok ==> mark == 5 + Find(text[5..], '&') && name == text[5..mark]
  {
    var buffer := new char[FIELD_SIZE](_ => NUL);
    var i := 5;
    while At(text, i) != '&'
      invariant 5 <= i <= 5 + FIELD_SIZE && (i > 5 ==> i <= |text|)
      invariant i <= |text| ==> buffer[..i - 5] == text[5..i] && '&' !in text[5..i]
      invariant forall k | i - 5 <= k < FIELD_SIZE :: buffer[k] == NUL
      decreases |text| - i
    {
      if i >= |text| {
        if i == |text| {
          assert text[5..][..i - 5] == text[5..i];
          FindUnique(text[5..], '&', i - 5);
        }
        return false, "", 0;
      }
      if i - 5 >= FIELD_SIZE {
        assert text[5..][..i - 5] == text[5..i];
        return false, "", 0;
      }
      buffer[i - 5] := text[i];
      i := i + 1;
    }
    assert text[5..][..i - 5] == text[5..i];
    FindUnique(text[5..], '&', i - 5);
    if i - 5 == FIELD_SIZE { return false, "", 0; }
    assert buffer[..][..i - 5] == text[5..i];
    CStrUnique(buffer[..], i - 5);
    return true, CStr(buffer[..]), i;
  }

  /** The second copy loop. */
  method CopyPassword(text: string, from: nat) returns (ok: bool, password: string)
    requires NUL !in text && from <= |text|
    ensures ok <==> |text| - from < FIELD_SIZE
    ensures ok ==> password == text[from..]
  {
    var buffer := new char[FIELD_SIZE](_ => NUL);
    var i, j := from, 0;
    while At(text, i) != NUL
      invariant from + j == i <= |text| && j <= FIELD_SIZE
      invariant buffer[..j] == text[from..i]
      invariant forall l | j <= l < FIELD_SIZE :: buffer[l] == NUL
      decreases |text| - i
    {
      if j >= FIELD_SIZE { return false, ""; }
      buffer[j] := text[i];
      i, j := i + 1, j + 1;
    }
    assert i == |text|;
    if j == FIELD_SIZE { return false, ""; }
    CStrUnique(buffer[..], j);
    return true, CStr(buffer[..]);
  }

  method ReadForm(text: string) returns (f: Form)
    requires NUL !in text
    ensures f == ParseForm(text)
  {
    var ok, name, mark := CopyName(text);
    if !ok || mark + 10 > |text| { return Undefined; }
    var fits, password := CopyPassword(text, mark + 10);
    return if fits then Form(name, password) else Undefined;
  }

  /** From the wire to the fields: a request that carries a printed form is answered, and
      its body is read as the name and password typed in, exactly when those fit. */
  lemma FormPosted(m: HttpMessage.Message, name: string, password: string)
    requires m.Valid() && HttpMachine.ParseRequestLine(m.line).Accepted?
    requires m.body == PrintForm(name, password) && NUL !in name && NUL !in password
    requires HttpMessage.ContentLength(m.headers) == |m.body|
    requires |HttpMessage.Print(m)| < HttpMachine.READ_BUFFER_SIZE
    ensures var (w, code) := HttpMachine.ProcessRead(HttpMachine.Feed(HttpMachine.Fresh, HttpMessage.Print(m)));
      code == HttpMachine.GetRequest && (ParseForm(w.body) == Form(name, password) <==> Fits(name, password))
  {
    hide HttpMachine.ProcessRead, HttpMachine.ParseRequestLine, HttpMessage.ContentLength, HttpMessage.Print;
    hide ParseForm;
    HttpMessage.MessageRead(m);
    NoNul(name, password);
    assert m.body[..|m.body|] == m.body;
    HttpMessage.PlainCStr(m.body);
    FormRoundTrip(name, password);
  }

  lemma NoNul(name: string, password: string)
    requires NUL !in name && NUL !in password
    ensures NUL !in PrintForm(name, password) && |PrintForm(name, password)| > 0
  {
  }

  // ---- registering and logging in, one worker beside another --------------------------------

  datatype Row = Row(name: string, password: string)

  /** Where a worker is inside a registration: past the lookup it waits for the lock. */
  datatype Session = Free | Checked(row: Row)

  datatype Site = Site(
    users: map<string, string>,
    rows: seq<Row>,            // the user table, which has no unique key
    sessions: seq<Session>,
    inserts: seq<Row>,         // what went through the locked section, in order
    welcomed: seq<Row>         // registrations answered with the login page
  )

  /** The lookup runs without the lock; the query and the map insert run under it.
      `sqlOk` is what mysql_query reports. */
  datatype Step = Look(w: nat, row: Row) | Insert(w: nat, sqlOk: bool)

  /** std::map::insert keeps a value that is there. */
  function Added(users: map<string, string>, row: Row): map<string, string>
  {
    if row.name in users then users else users[row.name := row.password]
  }

  /** Reading the whole table at the start assigns, so later rows replace earlier ones. */
  function Load(rows: seq<Row>): map<string, string>
  {
    if |rows| == 0 then map[]
    else var r := rows[|rows| - 1]; Load(rows[..|rows| - 1])[r.name := r.password]
  }

  predicate LoginOk(users: map<string, string>, row: Row)
  {
    row.name in users && users[row.name] == row.password
  }

  function DoLook(s: Site, w: nat, row: Row): Site
  {
    if !(w < |s.sessions| && s.sessions[w] == Free) || row.name in s.users then s
    else s.(sessions := s.sessions[w := Checked(row)])
  }

  function DoInsert(s: Site, w: nat, sqlOk: bool): Site
  {
    if !(w < |s.sessions| && s.sessions[w].Checked?) then s
    else
      var row := s.sessions[w].row;
      s.(users := Added(s.users, row), inserts := s.inserts + [row], sessions := s.sessions[w := Free],
         rows := if sqlOk then s.rows + [row] else s.rows,
         welcomed := if sqlOk then s.welcomed + [row] else s.welcomed)
  }

  function Act(s: Site, t: Step): Site
  {
    match t
    case Look(w, row) => DoLook(s, w, row)
    case Insert(w, sqlOk) => DoInsert(s, w, sqlOk)
  }

  function Exec(s: Site, ts: seq<Step>): Site
    decreases |ts|
  {
    if |ts| == 0 then s else Exec(Act(s, ts[0]), ts[1..])
  }

  function Start(rows: seq<Row>, workers: nat): Site
  {
    Site(Load(rows), rows, seq(workers, _ => Free), [], [])
  }

  /** The registration that an Insert step brings to the lock. */
  function Inserted(s: Site, t: Step, succeeded: bool): seq<Row>
  {
    if t.Insert? && t.w < |s.sessions| && s.sessions[t.w].Checked? && (succeeded ==> t.sqlOk) then [s.sessions[t.w].row] else []
  }

  /** All registrations a run brings there, or those of them whose query succeeds. */
  function AllInserted(s: Site, ts: seq<Step>, succeeded: bool): seq<Row>
    decreases |ts|
  {
    if |ts| == 0 then [] else Inserted(s, ts[0], succeeded) + AllInserted(Act(s, ts[0]), ts[1..], succeeded)
  }

  lemma InsertStep(s: Site, t: Step)
    ensures var r := Act(s, t);
            && r.inserts == s.inserts + Inserted(s, t, false)
            && r.rows == s.rows + Inserted(s, t, true) && r.welcomed == s.welcomed + Inserted(s, t, true)
  {
  }

  /** Over every run the table grows, and people are sent to the login page, by exactly the
      registrations whose query succeeds; all of them have been through the lock. */
  lemma {:induction false} InsertedLaw(s: Site, ts: seq<Step>)
    ensures var r := Exec(s, ts);
            && r.inserts == s.inserts + AllInserted(s, ts, false)
            && r.rows == s.rows + AllInserted(s, ts, true) && r.welcomed == s.welcomed + AllInserted(s, ts, true)
    decreases |ts|
  {
    hide Act, Inserted;
    if |ts| > 0 {
      var t, r := ts[0], Act(s, ts[0]);
      InsertStep(s, t);
      InsertedLaw(r, ts[1..]);
      Join(s.inserts, Inserted(s, t, false), AllInserted(r, ts[1..], false));
      Join(s.rows, Inserted(s, t, true), AllInserted(r, ts[1..], true));
      Join(s.welcomed, Inserted(s, t, true), AllInserted(r, ts[1..], true));
    }
  }

  lemma Join(a: seq<Row>, b: seq<Row>, c: seq<Row>)
    ensures a + b + c == a + (b + c)
  {
  }

  /** A worker goes to the lock exactly with a name it did not find, and comes back from it. */
  lemma SessionLaw(s: Site, t: Step, w: nat)
    requires w < |s.sessions|
    ensures |Act(s, t).sessions| == |s.sessions|
    ensures Act(s, t).sessions[w] ==
            if t.Look? && t.w == w && s.sessions[w] == Free && t.row.name !in s.users then Checked(t.row)
            else if t.Insert? && t.w == w then Free
            else s.sessions[w]
  {
  }

  /** A password that is loaded is that of the name's last row. */
  lemma {:induction false} LoadIsLast(rows: seq<Row>, row: Row)
    ensures LoginOk(Load(rows), row)
            <==> exists i | 0 <= i < |rows| :: rows[i] == row && forall j | i < j < |rows| :: rows[j].name != row.name
    decreases |rows|
  {
    if |rows| > 0 {
      var n, rest := |rows| - 1, rows[..|rows| - 1];
      LoadIsLast(rest, row);
      assert forall i | 0 <= i < n :: rest[i] == rows[i];
      if rows[n].name != row.name && exists i | 0 <= i < n :: rest[i] == row && forall j | i < j < n :: rest[j].name != row.name {
        var i :| 0 <= i < n && rest[i] == row && forall j | i < j < n :: rest[j].name != row.name;
        assert rows[i] == row && forall j | i < j < |rows| :: rows[j].name != row.name;
      }
    }
  }

  // ---- the first password stays ----------------------------------------------------------

  lemma {:induction false} PasswordStays(s: Site, ts: seq<Step>, name: string)
    requires name in s.users
    ensures name in Exec(s, ts).users && Exec(s, ts).users[name] == s.users[name]
    decreases |ts|
  {
    if |ts| > 0 { PasswordStays(Act(s, ts[0]), ts[1..], name); }
  }

  /** A login looks the name up and compares the password later; whatever happens in
      between, the answer is the one of the lookup's moment. */
  lemma LoginIsAtomic(s: Site, ts: seq<Step>, row: Row)
    ensures row.name in s.users && LoginOk(Exec(s, ts).users, row) <==> LoginOk(s.users, row)
  {
    if row.name in s.users { PasswordStays(s, ts, row.name); }
  }

  /** `row` is the first insert of its name, which was not known before. */
  ghost predicate First(known: map<string, string>, inserts: seq<Row>, row: Row)
  {
    row.name !in known && exists i | 0 <= i < |inserts| ::
      inserts[i] == row && forall j | 0 <= j < i :: inserts[j].name != row.name
  }

  ghost predicate Tracks(users: map<string, string>, known: map<string, string>, inserts: seq<Row>)
  {
    forall row: Row :: LoginOk(users, row) <==> LoginOk(known, row) || First(known, inserts, row)
  }

  lemma InUsers(users: map<string, string>, known: map<string, string>, inserts: seq<Row>, name: string)
    requires Tracks(users, known, inserts)
    ensures name in users <==> name in known || exists i | 0 <= i < |inserts| :: inserts[i].name == name
  {
    if name in users { assert LoginOk(users, Row(name, users[name])); }
    if name in known { assert LoginOk(known, Row(name, known[name])); }
    if name !in known && exists i | 0 <= i < |inserts| :: inserts[i].name == name {
      var i := FirstOf(inserts, name);
      assert First(known, inserts, inserts[i]);
      assert LoginOk(users, inserts[i]);
    }
  }

  lemma FirstOf(inserts: seq<Row>, name: string) returns (i: nat)
    requires exists i | 0 <= i < |inserts| :: inserts[i].name == name
    ensures i < |inserts| && inserts[i].name == name && forall j | 0 <= j < i :: inserts[j].name != name
  {
    i := 0;
    while inserts[i].name != name
      invariant i < |inserts| && forall j | 0 <= j < i :: inserts[j].name != name
      decreases |inserts| - i
    {
      i := i + 1;
    }
  }

  lemma FirstGrows(known: map<string, string>, inserts: seq<Row>, row: Row, r: Row)
    ensures First(known, inserts + [row], r) <==>
      First(known, inserts, r) || (r == row && r.name !in known && forall i | 0 <= i < |inserts| :: inserts[i].name != r.name)
  {
    var more := inserts + [row];
    assert forall i | 0 <= i < |inserts| :: more[i] == inserts[i];
    if First(known, inserts, r) {
      var i :| 0 <= i < |inserts| && inserts[i] == r && forall j | 0 <= j < i :: inserts[j].name != r.name;
      assert more[i] == r;
    }
    if r == row && r.name !in known && forall i | 0 <= i < |inserts| :: inserts[i].name != r.name {
      assert more[|inserts|] == r;
    }
  }

  lemma InsertTracks(users: map<string, string>, known: map<string, string>, inserts: seq<Row>, row: Row)
    requires Tracks(users, known, inserts)
    ensures Tracks(Added(users, row), known, inserts + [row])
  {
    InUsers(users, known, inserts, row.name);
    forall r: Row ensures LoginOk(Added(users, row), r) <==> LoginOk(known, r) || First(known, inserts + [row], r) {
      FirstGrows(known, inserts, row, r);
      assert LoginOk(users, r) <==> LoginOk(known, r) || First(known, inserts, r);
    }
  }

  lemma {:induction false} RunTracks(s: Site, ts: seq<Step>, known: map<string, string>)
    requires Tracks(s.users, known, s.inserts)
    ensures Tracks(Exec(s, ts).users, known, Exec(s, ts).inserts)
    decreases |ts|
  {
    hide Tracks, Added;
    if |ts| > 0 {
      var t := ts[0];
      if t.Insert? && t.w < |s.sessions| && s.sessions[t.w].Checked? {
        InsertTracks(s.users, known, s.inserts, s.sessions[t.w].row);
      }
      RunTracks(Act(s, t), ts[1..], known);
    }
  }

  /** Over any run, a login succeeds exactly with the password the table had at the start,
      or else with the one that was first inserted for the name. */
  lemma LoginExactly(rows: seq<Row>, workers: nat, ts: seq<Step>, row: Row)
    ensures var s := Exec(Start(rows, workers), ts);
      LoginOk(s.users, row) <==> LoginOk(Load(rows), row) || First(Load(rows), s.inserts, row)
  {
    var s0 := Start(rows, workers);
    assert Tracks(s0.users, Load(rows), s0.inserts);
    RunTracks(s0, ts, Load(rows));
  }

  // ---- whom the answer misleads ------------------------------------------------------------

  /** Everybody who was sent to the login page can log in with what they registered. */
  ghost predicate PromisesKept(s: Site)
  {
    forall i | 0 <= i < |s.welcomed| :: LoginOk(s.users, s.welcomed[i])
  }

  /** A server started again on the table would know the same users. */
  predicate RestartAgrees(s: Site) { Load(s.rows) == s.users }

  predicate QueriesSucceed(ts: seq<Step>)
  {
    forall i | 0 <= i < |ts| :: ts[i].Insert? ==> ts[i].sqlOk
  }

  /** With one worker nothing happens between its lookup and its insert. */
  ghost predicate Alone(s: Site)
  {
    && |s.sessions| <= 1 && PromisesKept(s)
    && (|s.sessions| == 1 && s.sessions[0].Checked? ==> s.sessions[0].row.name !in s.users)
  }

  lemma AloneStep(s: Site, t: Step)
    requires Alone(s)
    ensures Alone(Act(s, t))
    ensures RestartAgrees(s) && (t.Insert? ==> t.sqlOk) ==> RestartAgrees(Act(s, t))
  {
    if t.Insert? && t.w < |s.sessions| && s.sessions[t.w].Checked? {
      var row := s.sessions[t.w].row;
      assert (s.rows + [row])[..|s.rows|] == s.rows;
    }
  }

  lemma {:induction false} AloneRun(s: Site, ts: seq<Step>)
    requires Alone(s)
    ensures Alone(Exec(s, ts))
    ensures RestartAgrees(s) && QueriesSucceed(ts) ==> RestartAgrees(Exec(s, ts))
    decreases |ts|
  {
    hide Alone, RestartAgrees, Act;
    if |ts| > 0 {
      AloneStep(s, ts[0]);
      AloneRun(Act(s, ts[0]), ts[1..]);
    }
  }

  // ---- failed queries ------------------------------------------------------------------------

  /** Every insert of the run that took effect in memory had its query succeed. */
  predicate EffectsSucceed(s: Site, ts: seq<Step>)
    decreases |ts|
  {
    |ts| == 0 || ((Effective(s, ts[0]) ==> ts[0].sqlOk) && EffectsSucceed(Act(s, ts[0]), ts[1..]))
  }

  predicate Effective(s: Site, t: Step)
  {
    t.Insert? && t.w < |s.sessions| && s.sessions[t.w].Checked? && s.sessions[t.w].row.name !in s.users
  }

  /** The logins that work are the loaded ones and those of people sent to the login page. */
  ghost predicate OnlyWelcomed(s: Site, known: map<string, string>)
  {
    forall row :: LoginOk(s.users, row) <==> LoginOk(known, row) || row in s.welcomed
  }

  predicate AllWelcomed(s: Site)
  {
    forall i | 0 <= i < |s.inserts| :: s.inserts[i] in s.welcomed
  }

  /** What was inserted is new and works; whoever was welcomed was inserted. */
  ghost predicate MapBooks(s: Site, known: map<string, string>)
  {
    && (forall i | 0 <= i < |s.inserts| :: s.inserts[i].name !in known)
    && (forall i | 0 <= i < |s.welcomed| :: s.welcomed[i] in s.inserts)
    && (forall row :: LoginOk(s.users, row) <==> LoginOk(known, row) || row in s.inserts)
    && (forall n | n in known :: n in s.users)
  }

  /** The table gives no more than the map. */
  ghost predicate TableBooks(s: Site)
  {
    forall n | n in Load(s.rows) :: n in s.users && s.users[n] == Load(s.rows)[n]
  }

  ghost predicate Books(s: Site, known: map<string, string>)
  {
    Alone(s) && MapBooks(s, known) && TableBooks(s)
  }

  lemma BooksStep(s: Site, t: Step, known: map<string, string>)
    requires Books(s, known)
    ensures Books(Act(s, t), known)
    ensures AllWelcomed(Act(s, t)) <==> AllWelcomed(s) && (Effective(s, t) ==> t.sqlOk)
    ensures RestartAgrees(Act(s, t)) <==> RestartAgrees(s) && (Effective(s, t) ==> t.sqlOk)
  {
    AloneStep(s, t);
    if t.Insert? && t.w < |s.sessions| && s.sessions[t.w].Checked? {
      BooksInsert(s, t.w, t.sqlOk, known);
    }
  }

  lemma BooksInsert(s: Site, w: nat, sqlOk: bool, known: map<string, string>)
    requires Books(s, known) && w < |s.sessions| && s.sessions[w].Checked? && Alone(DoInsert(s, w, sqlOk))
    ensures var r := DoInsert(s, w, sqlOk);
            && Books(r, known) && (AllWelcomed(r) <==> AllWelcomed(s) && sqlOk)
            && (RestartAgrees(r) <==> RestartAgrees(s) && sqlOk)
  {
    hide Alone, MapBooks, TableBooks, AllWelcomed, RestartAgrees, DoInsert;
    AloneInsert(s, w);
    MapInsert(s, w, sqlOk, known);
    TableInsert(s, w, sqlOk);
  }

  lemma MapInsert(s: Site, w: nat, sqlOk: bool, known: map<string, string>)
    requires MapBooks(s, known) && w < |s.sessions| && s.sessions[w].Checked? && s.sessions[w].row.name !in s.users
    ensures var r := DoInsert(s, w, sqlOk); MapBooks(r, known) && (AllWelcomed(r) <==> AllWelcomed(s) && sqlOk)
  {
    var row, r := s.sessions[w].row, DoInsert(s, w, sqlOk);
    assert !LoginOk(s.users, row);
    assert row !in s.welcomed;
    assert r.inserts[|s.inserts|] == row && forall i | 0 <= i < |s.inserts| :: r.inserts[i] == s.inserts[i];
    assert forall x :: x in r.inserts <==> x in s.inserts || x == row;
    assert forall x :: x in r.welcomed <==> x in s.welcomed || (sqlOk && x == row);
    forall x: Row ensures LoginOk(r.users, x) <==> LoginOk(known, x) || x in r.inserts {
      assert LoginOk(s.users, x) <==> LoginOk(known, x) || x in s.inserts;
    }
  }

  lemma TableInsert(s: Site, w: nat, sqlOk: bool)
    requires TableBooks(s) && w < |s.sessions| && s.sessions[w].Checked? && s.sessions[w].row.name !in s.users
    ensures var r := DoInsert(s, w, sqlOk); TableBooks(r) && (RestartAgrees(r) <==> RestartAgrees(s) && sqlOk)
  {
    var row, r := s.sessions[w].row, DoInsert(s, w, sqlOk);
    LoadMore(s.rows, row);
    hide Load;
    if !RestartAgrees(s) {
      Disagrees(s);
      var n :| n in s.users && n !in Load(s.rows);
      assert n in r.users && n !in Load(r.rows);
    } else if !sqlOk {
      assert row.name in r.users && row.name !in Load(r.rows);
    }
  }

  lemma AloneInsert(s: Site, w: nat)
    requires Alone(s) && w < |s.sessions| && s.sessions[w].Checked?
    ensures s.sessions[w].row.name !in s.users
  {
  }

  lemma LoadMore(rows: seq<Row>, row: Row)
    ensures Load(rows + [row]) == Load(rows)[row.name := row.password]
  {
    assert (rows + [row])[..|rows|] == rows;
  }

  lemma Disagrees(s: Site)
    requires !RestartAgrees(s) && forall n | n in Load(s.rows) :: n in s.users && s.users[n] == Load(s.rows)[n]
    ensures exists n :: n in s.users && n !in Load(s.rows)
  {
  }

  lemma {:induction false} BooksRun(s: Site, ts: seq<Step>, known: map<string, string>)
    requires Books(s, known)
    ensures var r := Exec(s, ts);
            && Books(r, known) && (AllWelcomed(r) <==> AllWelcomed(s) && EffectsSucceed(s, ts))
            && (RestartAgrees(r) <==> RestartAgrees(s) && EffectsSucceed(s, ts))
    decreases |ts|
  {
    hide Books, AllWelcomed, RestartAgrees, Act, Effective;
    if |ts| > 0 {
      BooksStep(s, ts[0], known);
      BooksRun(Act(s, ts[0]), ts[1..], known);
    }
  }

  lemma BooksMean(s: Site, known: map<string, string>)
    requires Books(s, known)
    ensures OnlyWelcomed(s, known) <==> AllWelcomed(s)
  {
    forall i | 0 <= i < |s.inserts| ensures LoginOk(s.users, s.inserts[i]) && !LoginOk(known, s.inserts[i]) {
      assert s.inserts[i] in s.inserts;
    }
  }

  /** With one worker the logins that work are the loaded ones and those of people sent to
      the login page, and the table read back gives the map, in exactly those runs in which
      every insert that took effect had its query succeed. */
  lemma FailedQueriesIff(rows: seq<Row>, workers: nat, ts: seq<Step>)
    requires workers <= 1
    ensures var s := Exec(Start(rows, workers), ts);
            && (OnlyWelcomed(s, Load(rows)) <==> EffectsSucceed(Start(rows, workers), ts))
            && (RestartAgrees(s) <==> EffectsSucceed(Start(rows, workers), ts))
  {
    hide EffectsSucceed, OnlyWelcomed;
    StartAlone(rows, workers);
    BooksRun(Start(rows, workers), ts, Load(rows));
    BooksMean(Exec(Start(rows, workers), ts), Load(rows));
  }

  /** So somebody answered with the error page can log in. */
  lemma RefusedCanLogIn(rows: seq<Row>, workers: nat, row: Row)
    requires workers > 0 && row.name !in Load(rows)
    ensures var s := Exec(Start(rows, workers), [Look(0, row), Insert(0, false)]);
            s.welcomed == [] && s.rows == rows && LoginOk(s.users, row)
  {
    var s, ts := Start(rows, workers), [Look(0, row), Insert(0, false)];
    Unfold(s, ts);
    Unfold(Act(s, ts[0]), ts[1..]);
    assert ts[1..][0] == ts[1] && ts[1..][1..] == [];
  }

  // ---- two workers ----------------------------------------------------------------------------

  const FIRST: Row := Row("a", "1")
  const SECOND: Row := Row("a", "2")

  /** Two browsers register one name at the same moment. */
  function Race(): seq<Step>
  {
    [Look(0, FIRST), Look(1, SECOND), Insert(0, true), Insert(1, true)]
  }

  lemma RaceEnds(workers: nat)
    requires workers >= 2
    ensures var s := Exec(Start([], workers), Race());
      s.welcomed == s.rows == [FIRST, SECOND] && s.users == map["a" := "1"]
  {
    var s0, ts := Start([], workers), Race();
    var s1 := s0.(sessions := s0.sessions[0 := Checked(FIRST)]);
    var s2 := s1.(sessions := s1.sessions[1 := Checked(SECOND)]);
    var s3 := s2.(sessions := s2.sessions[0 := Free], users := map["a" := "1"], rows := [FIRST], inserts := [FIRST], welcomed := [FIRST]);
    var s4 := s3.(sessions := s3.sessions[1 := Free], rows := [FIRST, SECOND], inserts := [FIRST, SECOND], welcomed := [FIRST, SECOND]);
    assert Act(s0, ts[0]) == s1 && Act(s1, ts[1]) == s2 && Act(s2, ts[2]) == s3 && Act(s3, ts[3]) == s4;
    hide Act;
    Unfold(s0, ts); Unfold(s1, ts[1..]); Unfold(s2, ts[2..]); Unfold(s3, ts[3..]);
    assert ts[1..][1..] == ts[2..] && ts[2..][1..] == ts[3..] && ts[3..][1..] == [];
  }

  lemma Unfold(s: Site, ts: seq<Step>)
    requires |ts| > 0
    ensures Exec(s, ts) == Exec(Act(s, ts[0]), ts[1..])
  {
  }

  lemma RaceMisleads(s: Site)
    requires s.welcomed == s.rows == [FIRST, SECOND] && s.users == map["a" := "1"]
    ensures !PromisesKept(s) && !RestartAgrees(s)
  {
    assert "1"[0] != "2"[0];
    assert !LoginOk(s.users, s.welcomed[1]);
    assert Load(s.rows)["a"] == "2";
  }

  /** Every registration answered with the login page gives a working login, in all runs
      from all tables, exactly when there is at most one worker. */
  lemma PromisesIff(workers: nat)
    ensures (forall rows, ts :: PromisesKept(Exec(Start(rows, workers), ts))) <==> workers <= 1
  {
    hide Exec, PromisesKept, Race;
    if workers <= 1 {
      forall rows, ts ensures PromisesKept(Exec(Start(rows, workers), ts)) {
        OneWorker(rows, workers, ts);
      }
    } else {
      RaceEnds(workers);
      RaceMisleads(Exec(Start([], workers), Race()));
      assert !PromisesKept(Exec(Start([], workers), Race()));
    }
  }

  /** Likewise the table read back after a run whose queries succeed gives the same users. */
  lemma RestartIff(workers: nat)
    ensures (forall rows, ts :: QueriesSucceed(ts) ==> RestartAgrees(Exec(Start(rows, workers), ts))) <==> workers <= 1
  {
    hide Exec, RestartAgrees, QueriesSucceed, Race;
    if workers <= 1 {
      forall rows, ts | QueriesSucceed(ts) ensures RestartAgrees(Exec(Start(rows, workers), ts)) {
        OneWorker(rows, workers, ts);
      }
    } else {
      RaceEnds(workers);
      RaceMisleads(Exec(Start([], workers), Race()));
      RaceSucceeds();
      assert QueriesSucceed(Race()) && !RestartAgrees(Exec(Start([], workers), Race()));
    }
  }

  lemma OneWorker(rows: seq<Row>, workers: nat, ts: seq<Step>)
    requires workers <= 1
    ensures PromisesKept(Exec(Start(rows, workers), ts))
    ensures QueriesSucceed(ts) ==> RestartAgrees(Exec(Start(rows, workers), ts))
  {
    StartAlone(rows, workers);
    AloneRun(Start(rows, workers), ts);
  }

  lemma StartAlone(rows: seq<Row>, workers: nat)
    requires workers <= 1
    ensures Alone(Start(rows, workers)) && RestartAgrees(Start(rows, workers))
  {
  }

  lemma RaceSucceeds()
    ensures QueriesSucceed(Race())
  {
  }

  // ---- one request, in place ---------------------------------------------------------------

  datatype Page = LoginPage | RegisterError | Welcome | LoginError | NoResult

  /** The statement that is put together with strcpy and strcat. */
  function InsertText(row: Row): string
  {
    "INSERT INTO user(username, passwd) VALUES(" + "'" + row.name + "', '" + row.password + "')"
  }

  /** C has no result: the form cannot be read, or the INSERT overruns its buffer. */
  predicate Unreadable(register: bool, text: string)
  {
    match ParseForm(text)
    case Undefined => true
    case Form(name, password) => register && |InsertText(Row(name, password))| >= SQL_SIZE
  }

  /** In a registration name and password may have 150 characters together. */
  lemma InsertFits(row: Row)
    ensures |InsertText(row)| < SQL_SIZE <==> |row.name| + |row.password| <= 150
  {
  }

  function Posted(text: string): Row
    requires ParseForm(text).Form?
  {
    Row(ParseForm(text).name, ParseForm(text).password)
  }

  /** The user map of the process and the table behind it. */
  class Store {
    var users: map<string, string>
    var rows: seq<Row>

    /** The map is filled row by row when the server starts. */
    constructor (table: seq<Row>)
      ensures users == Load(table) && rows == table
    {
      users, rows := map[], table;
      new;
      var i := 0;
      while i < |table|
        invariant i <= |table| && users == Load(table[..i]) && rows == table
      {
        assert table[..i + 1][..i] == table[..i];
        users := users[table[i].name := table[i].password];
        i := i + 1;
      }
      assert table[..i] == table;
    }

    function Snapshot(): Site
      reads this
    {
      Site(users, rows, [Free], [], [])
    }

    /** Undisturbed, a registration is its two steps one after the other. */
    method Register(row: Row, sqlOk: bool) returns (page: Page)
      modifies this
      ensures var s := Exec(old(Snapshot()), [Look(0, row), Insert(0, sqlOk)]);
        users == s.users && rows == s.rows && (page == LoginPage <==> s.welcomed == [row])
      ensures page == LoginPage || page == RegisterError
      ensures page == LoginPage ==> LoginOk(users, row)
    {
      ghost var s0, ts := Snapshot(), [Look(0, row), Insert(0, sqlOk)];
      Unfold(s0, ts);
      Unfold(Act(s0, ts[0]), ts[1..]);
      assert ts[1..][0] == ts[1] && ts[1..][1..] == [];
      if row.name !in users {
        if sqlOk { rows := rows + [row]; }
        users := users[row.name := row.password];
        page := if sqlOk then LoginPage else RegisterError;
      } else {
        page := RegisterError;
      }
    }

    method Login(row: Row) returns (page: Page)
      ensures page == Welcome <==> LoginOk(users, row)
      ensures page == Welcome || page == LoginError
    {
      page := if row.name in users && users[row.name] == row.password then Welcome else LoginError;
    }

    /** A POST to /3 registers, a POST to /2 logs in. */
    method DoForm(register: bool, text: string, sqlOk: bool) returns (page: Page)
      requires NUL !in text
      modifies this
      ensures page == NoResult <==> Unreadable(register, text)
      ensures page == NoResult <==>
              ParseForm(text) == Undefined || (register && |ParseForm(text).name| + |ParseForm(text).password| > 150)
      ensures page == NoResult || !register ==> users == old(users) && rows == old(rows)
      ensures page != NoResult && !register ==> (page == Welcome <==> LoginOk(users, Posted(text)))
      ensures page != NoResult && register ==>
        && users == Added(old(users), Posted(text))
        && (page == LoginPage <==> sqlOk && Posted(text).name !in old(users))
        && rows == if page == LoginPage then old(rows) + [Posted(text)] else old(rows)
    {
      var f := ReadForm(text);
      if f == Undefined { return NoResult; }
      var row := Row(f.name, f.password);
      if register {
        InsertFits(row);
        var insert := InsertText(row);
        if |insert| >= SQL_SIZE { return NoResult; }
        ghost var s0, ts := Snapshot(), [Look(0, row), Insert(0, sqlOk)];
        Unfold(s0, ts);
        Unfold(Act(s0, ts[0]), ts[1..]);
        assert ts[1..][0] == ts[1] && ts[1..][1..] == [];
        page := Register(row, sqlOk);
      } else {
        page := Login(row);
      }
    }
  }
}
