/** Integration credentials: one row per service and project, merged on every save. */
module CredentialStore {
  import opened Text
  import opened Wrappers

  type Values = map<string, string>

  datatype Status = Pending | Connected | Error | Disabled

  /** A row of the table. creds is what decrypts from its blob. */
  datatype Row = Row(id: nat, service: string, project: Option<nat>, creds: Values, public: Values, status: Status)

  /** The secret keys of each service in the catalog. */
  type Catalog = map<string, set<string>>

  function SecretKeys(catalog: Catalog, service: string): set<string> {
    if service in catalog then catalog[service] else {}
  }

  /** The SELECT of `find`; a project of None matches only rows without a project. */
  function Find(rows: seq<Row>, service: string, project: Option<nat>): Option<Row> {
    if rows == [] then None
    else if rows[0].service == service && rows[0].project == project then Some(rows[0])
    else Find(rows[1..], service, project)
  }

  function Public(catalog: Catalog, service: string, creds: Values): Values {
    map k | k in creds && k !in SecretKeys(catalog, service) :: creds[k]
  }

  function Merged(previous: Option<Row>, values: Values, merge: bool): Values {
    (if merge && previous.Some? then previous.value.creds else map[]) + values
  }

  /** The columns an UPDATE sets; saving credentials also sets the status back to pending. */
  datatype Change = Save(creds: Values, public: Values) | Mark(status: Status)

  function Changed(r: Row, c: Change): Row {
    match c
    case Save(creds, public) => r.(creds := creds, public := public, status := Pending)
    case Mark(status) => r.(status := status)
  }

  /** An UPDATE by id. */
  function Updated(rows: seq<Row>, id: nat, c: Change): seq<Row> {
    seq(|rows|, i requires 0 <= i < |rows| => if rows[i].id == id then Changed(rows[i], c) else rows[i])
  }

  /** A DELETE by id. */
  function Without(rows: seq<Row>, id: nat): seq<Row> {
    if rows == [] then [] else (if rows[0].id == id then [] else [rows[0]]) + Without(rows[1..], id)
  }

  /** The id SQLite gives a new row: one more than the largest in use. */
  function NextId(rows: seq<Row>): (id: nat)
    ensures id > 0 && forall r :: r in rows ==> r.id < id
  {
    if rows == [] then 1 else
    var rest := NextId(rows[1..]);
    if rows[0].id >= rest then rows[0].id + 1 else rest
  }

  datatype Op =
    | Upsert(service: string, project: Option<nat>, values: Values, merge: bool)
    | SetStatus(id: nat, status: Status)
    | Delete(id: nat)

  function Apply(catalog: Catalog, rows: seq<Row>, op: Op): seq<Row> {
    match op
    case SetStatus(id, status) => Updated(rows, id, Mark(status))
    case Delete(id) => Without(rows, id)
    case Upsert(service, project, values, merge) =>
      var existing := Find(rows, service, project);
      var creds := Merged(existing, values, merge);
      var public := Public(catalog, service, creds);
      if existing.Some? then Updated(rows, existing.value.id, Save(creds, public))
      else rows + [Row(NextId(rows), service, project, creds, public, Pending)]
  }

  class IntegrationStore {
    const catalog: Catalog
    var rows: seq<Row>

    constructor (catalog: Catalog)
      ensures this.catalog == catalog && rows == [] && Valid(catalog, rows)
    {
      this.catalog, rows := catalog, [];
    }

    /** Creates or updates a row and returns it. */
    method UpsertRow(service: string, project: Option<nat>, values: Values, merge: bool) returns (row: Row)
      requires Valid(catalog, rows)
      modifies this`rows
      ensures rows == Apply(catalog, old(rows), Upsert(service, project, values, merge)) && Valid(catalog, rows)
      ensures Find(rows, service, project) == Some(row)
    {
      ApplyKeepsValid(catalog, rows, Upsert(service, project, values, merge));
      FindAfter(catalog, rows, Upsert(service, project, values, merge), service, project);
      FindIsFirst(rows, service, project);
      hide Find, Valid;
      var existing := Find(rows, service, project);
      var merged: Values := map[];
      if existing.Some? && merge {
        merged := existing.value.creds;
      }
      merged := merged + values;
      var public := Public(catalog, service, merged);
      if existing.Some? {
        rows := Updated(rows, existing.value.id, Save(merged, public));
        return Changed(existing.value, Save(merged, public));
      }
      row := Row(NextId(rows), service, project, merged, public, Pending);
      rows := rows + [row];
    }

    method SetRowStatus(id: nat, status: Status)
      requires Valid(catalog, rows)
      modifies this`rows
      ensures rows == Apply(catalog, old(rows), SetStatus(id, status)) && Valid(catalog, rows)
    {
      ApplyKeepsValid(catalog, rows, SetStatus(id, status));
      rows := Updated(rows, id, Mark(status));
    }

    method DeleteRow(id: nat) returns (found: bool)
      requires Valid(catalog, rows)
      modifies this`rows
      ensures rows == Apply(catalog, old(rows), Delete(id)) && Valid(catalog, rows)
      ensures found <==> exists r :: r in old(rows) && r.id == id
    {
      ApplyKeepsValid(catalog, rows, Delete(id));
      WithoutAbsent(rows, id);
      found := exists r :: r in rows && r.id == id;
      if found {
        rows := Without(rows, id);
      }
    }

    /** The project's own row decides whenever there is one, even if it is empty. */
    method Credentials(service: string, project: Option<nat>) returns (creds: Values)
      ensures creds == CredentialsFor(rows, service, project)
    {
      var row := Find(rows, service, project);
      if row.None? && project.Some? {
        row := Find(rows, service, None);
      }
      creds := if row.None? then map[] else row.value.creds;
    }
  }

  function CredentialsFor(rows: seq<Row>, service: string, project: Option<nat>): Values {
    var own, shared := Find(rows, service, project), Find(rows, service, None);
    if own.Some? then own.value.creds else if shared.Some? then shared.value.creds else map[]
  }

  // ----- what every run keeps -----

  predicate UniqueIds(rows: seq<Row>) {
    forall i, j :: 0 <= i < j < |rows| ==> rows[i].id != rows[j].id
  }

  predicate UniquePairs(rows: seq<Row>) {
    forall i, j :: 0 <= i < j < |rows| ==> (rows[i].service, rows[i].project) != (rows[j].service, rows[j].project)
  }

  /** The public part is the credentials without the secret keys. */
  predicate NoSecretIsPublic(catalog: Catalog, rows: seq<Row>) {
    forall i :: 0 <= i < |rows| ==> rows[i].public == Public(catalog, rows[i].service, rows[i].creds)
  }

  /** At most one row for each id and for each service and project, None included; no secret in a public part. */
  predicate Valid(catalog: Catalog, rows: seq<Row>) {
    UniqueIds(rows) && UniquePairs(rows) && NoSecretIsPublic(catalog, rows)
  }

  lemma {:induction false} FindIsFirst(rows: seq<Row>, service: string, project: Option<nat>)
    ensures Find(rows, service, project).Some? ==>
      var r := Find(rows, service, project).value;
      r in rows && r.service == service && r.project == project
    ensures Find(rows, service, project).None? ==>
      forall r :: r in rows ==> r.service != service || r.project != project
  {
    if rows != [] {
      FindIsFirst(rows[1..], service, project);
    }
  }

  lemma FindIs(rows: seq<Row>, service: string, project: Option<nat>, r: Option<Row>)
    requires UniquePairs(rows)
    requires r.Some? ==> r.value in rows && r.value.service == service && r.value.project == project
    requires r.None? ==> forall x :: x in rows ==> x.service != service || x.project != project
    ensures Find(rows, service, project) == r
  {
    FindIsFirst(rows, service, project);
  }

  lemma {:induction false} WithoutMembers(rows: seq<Row>, id: nat)
    ensures forall r :: r in Without(rows, id) <==> r in rows && r.id != id
  {
    if rows != [] {
      WithoutMembers(rows[1..], id);
      assert rows == [rows[0]] + rows[1..];
    }
  }

  /** The rows left by a delete are the others. */
  lemma {:induction false} WithoutIsOthers(rows: seq<Row>, id: nat)
    requires UniqueIds(rows)
    ensures var left := Without(rows, id);
      (UniquePairs(rows) ==> UniquePairs(left)) && UniqueIds(left) && forall r :: r in left <==> r in rows && r.id != id
  {
    hide UniqueIds, UniquePairs, Without;
    WithoutMembers(rows, id);
    WithoutStep(rows, id);
    if rows != [] {
      WithoutMembers(rows[1..], id);
      UniqueAgain(rows, Without(rows[1..], id));
      WithoutIsOthers(rows[1..], id);
    }
  }

  lemma WithoutStep(rows: seq<Row>, id: nat)
    ensures rows == [] ==> Without(rows, id) == rows
    ensures rows != [] ==>
      var rest := Without(rows[1..], id);
      Without(rows, id) == if rows[0].id == id then rest else [rows[0]] + rest
  {
  }

  lemma UniqueAgain(rows: seq<Row>, rest: seq<Row>)
    requires rows != [] && forall r :: r in rest ==> r in rows[1..]
    ensures UniqueIds(rows) ==> UniqueIds(rows[1..]) && (UniqueIds(rest) ==> UniqueIds([rows[0]] + rest))
    ensures UniquePairs(rows) ==> UniquePairs(rows[1..]) && (UniquePairs(rest) ==> UniquePairs([rows[0]] + rest))
  {
    var all := [rows[0]] + rest;
    forall i | 0 < i < |all| ensures exists j :: 0 < j < |rows| && rows[j] == all[i] {
      assert all[i] in rest;
      var j :| 0 <= j < |rows[1..]| && rows[1..][j] == all[i];
      assert rows[j + 1] == all[i];
    }
  }

  lemma {:induction false} WithoutAbsent(rows: seq<Row>, id: nat)
    ensures (forall r :: r in rows ==> r.id != id) ==> Without(rows, id) == rows
  {
    if rows != [] {
      WithoutAbsent(rows[1..], id);
    }
  }

  lemma ApplyKeepsValid(catalog: Catalog, rows: seq<Row>, op: Op)
    requires Valid(catalog, rows)
    ensures Valid(catalog, Apply(catalog, rows, op))
  {
    hide Find, Public, Merged, Without;
    match op
    case SetStatus(id, status) =>
    case Delete(id) => WithoutIsOthers(rows, id);
    case Upsert(service, project, values, merge) => FindIsFirst(rows, service, project);
  }

  predicate HasRow(r: Option<Row>, id: nat) {
    r.Some? && r.value.id == id
  }

  /** What becomes of the row of a service and project. */
  function RowAfter(catalog: Catalog, rows: seq<Row>, op: Op, service: string, project: Option<nat>): Option<Row> {
    var before := Find(rows, service, project);
    match op
    case SetStatus(id, status) =>
      if HasRow(before, id) then Some(Changed(before.value, Mark(status))) else before
    case Delete(id) => if HasRow(before, id) then None else before
    case Upsert(s, p, values, merge) =>
      if s != service || p != project then before else
      var creds := Merged(before, values, merge);
      Some(Row(if before.Some? then before.value.id else NextId(rows), s, p, creds, Public(catalog, s, creds), Pending))
  }

  lemma RowInUpdated(rows: seq<Row>, r: Row, id: nat, c: Change)
    requires r in rows
    ensures (if r.id == id then Changed(r, c) else r) in Updated(rows, id, c)
  {
    var i :| 0 <= i < |rows| && rows[i] == r;
    assert Updated(rows, id, c)[i] == if r.id == id then Changed(r, c) else r;
  }

  lemma FindUpdated(rows: seq<Row>, id: nat, c: Change, service: string, project: Option<nat>)
    requires UniqueIds(rows) && UniquePairs(rows) && UniquePairs(Updated(rows, id, c))
    ensures var before := Find(rows, service, project);
      Find(Updated(rows, id, c), service, project)
        == if HasRow(before, id) then Some(Changed(before.value, c)) else before
  {
    FindIsFirst(rows, service, project);
    hide Find;
    var before := Find(rows, service, project);
    if before.Some? {
      RowInUpdated(rows, before.value, id, c);
      hide Updated;
    }
    FindIs(Updated(rows, id, c), service, project,
           if HasRow(before, id) then Some(Changed(before.value, c)) else before);
  }

  lemma FindAdded(rows: seq<Row>, r: Row, service: string, project: Option<nat>)
    requires UniquePairs(rows + [r])
    ensures Find(rows + [r], service, project)
      == if r.service == service && r.project == project then Some(r) else Find(rows, service, project)
  {
    FindIsFirst(rows, service, project);
    hide Find;
    FindIs(rows + [r], service, project,
           if r.service == service && r.project == project then Some(r) else Find(rows, service, project));
  }

  /** An operation by id or by service and project touches that row only. */
  lemma FindAfter(catalog: Catalog, rows: seq<Row>, op: Op, service: string, project: Option<nat>)
    requires Valid(catalog, rows)
    ensures Find(Apply(catalog, rows, op), service, project) == RowAfter(catalog, rows, op, service, project)
  {
    ApplyKeepsValid(catalog, rows, op);
    FindIsFirst(rows, service, project);
    hide Find, Merged, Without, Public, Updated, UniquePairs, UniqueIds, NoSecretIsPublic;
    match op {
      case SetStatus(id, status) =>
        FindUpdated(rows, id, Mark(status), service, project);
      case Delete(id) =>
        FindWithout(rows, id, service, project);
      case Upsert(s, p, values, merge) =>
        var existing := Find(rows, s, p);
        FindIsFirst(rows, s, p);
        var creds := Merged(existing, values, merge);
        if existing.Some? {
          FindUpdated(rows, existing.value.id, Save(creds, Public(catalog, s, creds)), service, project);
          SameIdSamePair(rows, existing.value, Find(rows, service, project));
        } else {
          FindAdded(rows, Row(NextId(rows), s, p, creds, Public(catalog, s, creds), Pending), service, project);
        }
    }
  }

  lemma SameIdSamePair(rows: seq<Row>, r: Row, other: Option<Row>)
    requires UniqueIds(rows) && r in rows && (other.Some? ==> other.value in rows)
    ensures HasRow(other, r.id) ==> other == Some(r)
  {
  }

  lemma FindWithout(rows: seq<Row>, id: nat, service: string, project: Option<nat>)
    requires UniqueIds(rows) && UniquePairs(rows)
    ensures var before := Find(rows, service, project);
      Find(Without(rows, id), service, project) == if HasRow(before, id) then None else before
  {
    WithoutIsOthers(rows, id);
    FindIsFirst(rows, service, project);
    hide Find, Without;
    var before := Find(rows, service, project);
    if HasRow(before, id) {
      PairIsUnique(rows, before.value);
    }
    FindIs(Without(rows, id), service, project, if HasRow(before, id) then None else before);
  }

  lemma PairIsUnique(rows: seq<Row>, r: Row)
    requires UniquePairs(rows) && r in rows
    ensures forall x :: x in rows && x.service == r.service && x.project == r.project ==> x == r
  {
  }

  // ----- whole runs -----

  function Run(catalog: Catalog, ops: seq<Op>): seq<Row> {
    if ops == [] then [] else Apply(catalog, Run(catalog, ops[..|ops| - 1]), ops[|ops| - 1])
  }

  /** The value last written to a field since its row was created, straight from the history. */
  function LastWritten(catalog: Catalog, ops: seq<Op>, service: string, project: Option<nat>, key: string)
    : Option<string>
  {
    if ops == [] then None else
    var before, op := ops[..|ops| - 1], ops[|ops| - 1];
    var earlier := LastWritten(catalog, before, service, project, key);
    match op
    case SetStatus(_, _) => earlier
    case Delete(id) => if HasRow(Find(Run(catalog, before), service, project), id) then None else earlier
    case Upsert(s, p, values, merge) =>
      if s != service || p != project then earlier
      else if key in values then Some(values[key])
      else if merge then earlier else None
  }

  function Field(creds: Values, key: string): Option<string> {
    if key in creds then Some(creds[key]) else None
  }

  function Stored(r: Option<Row>, key: string): Option<string> {
    if r.Some? then Field(r.value.creds, key) else None
  }

  lemma {:induction false} RunIsValid(catalog: Catalog, ops: seq<Op>)
    ensures Valid(catalog, Run(catalog, ops))
  {
    if ops != [] {
      hide Valid, Apply;
      RunIsValid(catalog, ops[..|ops| - 1]);
      ApplyKeepsValid(catalog, Run(catalog, ops[..|ops| - 1]), ops[|ops| - 1]);
    } else {
      assert Run(catalog, ops) == [];
    }
  }

  /** In any run, each stored field is the value last written to it since its row was created. */
  lemma {:induction false} FieldsAreLastWritten(catalog: Catalog, ops: seq<Op>, service: string, project: Option<nat>,
                                                key: string)
    ensures Stored(Find(Run(catalog, ops), service, project), key) == LastWritten(catalog, ops, service, project, key)
  {
    if ops != [] {
      var before, op := ops[..|ops| - 1], ops[|ops| - 1];
      FieldsAreLastWritten(catalog, before, service, project, key);
      RunIsValid(catalog, before);
      FindAfter(catalog, Run(catalog, before), op, service, project);
      hide Find, Valid, Apply;
    }
  }

  /** An agent reads the shared row exactly when the project has none of its own, and each field as last written. */
  lemma AgentsReadLastWritten(catalog: Catalog, ops: seq<Op>, service: string, project: Option<nat>, key: string)
    ensures var rows := Run(catalog, ops);
      Field(CredentialsFor(rows, service, project), key)
      == LastWritten(catalog, ops, service, if Find(rows, service, project).Some? then project else None, key)
  {
    hide Find, Run, LastWritten;
    FieldsAreLastWritten(catalog, ops, service, project, key);
    FieldsAreLastWritten(catalog, ops, service, None, key);
  }

  /** In any run the table has one row for each service and project, and its public part holds the fields that are not
      secret, with their values. */
  lemma OneRowEachAndNoSecrets(catalog: Catalog, ops: seq<Op>, r: Row)
    requires r in Run(catalog, ops)
    ensures Find(Run(catalog, ops), r.service, r.project) == Some(r)
    ensures forall k :: k in r.public <==> k in r.creds && !(r.service in catalog && k in catalog[r.service])
    ensures forall k :: k in r.public ==> r.public[k] == r.creds[k]
  {
    RunIsValid(catalog, ops);
    hide Run;
    FindIs(Run(catalog, ops), r.service, r.project, Some(r));
  }

  /** The status last written, straight from the history: every save sets it back to pending. */
  function LastStatus(catalog: Catalog, ops: seq<Op>, service: string, project: Option<nat>): Option<Status> {
    if ops == [] then None else
    var before, op := ops[..|ops| - 1], ops[|ops| - 1];
    var earlier := LastStatus(catalog, before, service, project);
    match op
    case SetStatus(id, status) =>
      if HasRow(Find(Run(catalog, before), service, project), id) then Some(status) else earlier
    case Delete(id) => if HasRow(Find(Run(catalog, before), service, project), id) then None else earlier
    case Upsert(s, p, _, _) => if s == service && p == project then Some(Pending) else earlier
  }

  /** In any run, a row has the status last written to it, its own service and project, and the id it was created
      with. */
  lemma {:induction false} StatusIsLastWritten(catalog: Catalog, ops: seq<Op>, service: string, project: Option<nat>)
    ensures var r := Find(Run(catalog, ops), service, project);
      && LastStatus(catalog, ops, service, project) == (if r.Some? then Some(r.value.status) else None)
      && (r.Some? ==> r.value.service == service && r.value.project == project)
      && (ops != [] ==>
            var before := Find(Run(catalog, ops[..|ops| - 1]), service, project);
            before.Some? && r.Some? ==> r.value.id == before.value.id)
  {
    FindIsFirst(Run(catalog, ops), service, project);
    if ops != [] {
      var before, op := ops[..|ops| - 1], ops[|ops| - 1];
      StatusIsLastWritten(catalog, before, service, project);
      RunIsValid(catalog, before);
      FindAfter(catalog, Run(catalog, before), op, service, project);
      hide Find, Valid, Apply;
    }
  }

  // ----- blank fields -----

  /** Saving with merge keeps a stored value exactly when the field is left out or has that value: a blank one
      replaces it. */
  lemma KeptExactlyWhenLeftOut(catalog: Catalog, ops: seq<Op>, service: string, project: Option<nat>,
                               values: Values, key: string)
    requires LastWritten(catalog, ops, service, project, key).Some?
    ensures var written := LastWritten(catalog, ops, service, project, key);
      Stored(Find(Run(catalog, ops + [Upsert(service, project, values, true)]), service, project), key) == written
      <==> key !in values || values[key] == written.value
  {
    var all := ops + [Upsert(service, project, values, true)];
    assert all[..|all| - 1] == ops;
    FieldsAreLastWritten(catalog, all, service, project, key);
    hide Find, Run;
  }

  datatype FormField = FormField(key: string, required: bool, isUrl: bool)

  predicate IsLink(value: string) {
    "http://" <= value || "https://" <= value
  }

  function Entered(f: FormField, values: Values): string {
    if f.key in values then Trim(values[f.key]) else ""
  }

  predicate IsBad(f: FormField, values: Values) {
    if Entered(f, values) == "" then f.required else f.isUrl && !IsLink(Entered(f, values))
  }

  predicate IsGood(f: FormField, values: Values) {
    Entered(f, values) != "" && !IsBad(f, values)
  }

  /** The keys of the bad fields, in the order of the form. */
  function BadKeys(fields: seq<FormField>, values: Values): seq<string> {
    if fields == [] then [] else
    var before, f := BadKeys(fields[..|fields| - 1], values), fields[|fields| - 1];
    if IsBad(f, values) then before + [f.key] else before
  }

  lemma OneMoreField(fields: seq<FormField>, f: FormField, values: Values)
    ensures BadKeys(fields + [f], values)
      == if IsBad(f, values) then BadKeys(fields, values) + [f.key] else BadKeys(fields, values)
  {
    assert (fields + [f])[..|fields|] == fields;
  }

  lemma NoFields(values: Values)
    ensures BadKeys([], values) == []
  {
  }

  lemma {:induction false} BadKeysAre(fields: seq<FormField>, values: Values)
    ensures forall k :: k in BadKeys(fields, values) <==> exists f :: f in fields && f.key == k && IsBad(f, values)
  {
    hide IsBad;
    if fields != [] {
      var before, f := fields[..|fields| - 1], fields[|fields| - 1];
      BadKeysAre(before, values);
      assert fields == before + [f];
    }
  }

  /** `catalog.validate`: what is entered properly, trimmed, and the keys with errors. A blank field is in neither if it
      is optional and never among the cleaned values, so that saving keeps what is stored for it. */
  method Validate(fields: seq<FormField>, values: Values) returns (cleaned: Values, errors: seq<string>)
    ensures forall k :: k in cleaned <==> exists f :: f in fields && f.key == k && IsGood(f, values)
    ensures forall k :: k in cleaned ==> k in values && cleaned[k] == Trim(values[k]) && cleaned[k] != ""
    ensures forall k :: k in errors <==> exists f :: f in fields && f.key == k && IsBad(f, values)
    ensures errors == BadKeys(fields, values)
  {
    hide Trim, IsLink, BadKeys;
    NoFields(values);
    cleaned, errors := map[], [];
    for i := 0 to |fields|
      invariant forall k :: k in cleaned <==> exists f :: f in fields[..i] && f.key == k && IsGood(f, values)
      invariant forall k :: k in cleaned ==> k in values && cleaned[k] == Trim(values[k]) && cleaned[k] != ""
      invariant errors == BadKeys(fields[..i], values)
    {
      var f := fields[i];
      assert fields[..i + 1] == fields[..i] + [f];
      OneMoreField(fields[..i], f, values);
      var value := if f.key in values then Trim(values[f.key]) else "";
      if value == "" {
        if f.required {
          errors := errors + [f.key];
        }
      } else if f.isUrl && !IsLink(value) {
        errors := errors + [f.key];
      } else {
        cleaned := cleaned[f.key := value];
      }
    }
    assert fields[..|fields|] == fields;
    BadKeysAre(fields, values);
  }

  /** A field is in error if it is blank and required, or a link that does not begin as one; a blank one is not
      entered. */
  lemma BadByCharacters(f: FormField, values: Values)
    ensures var blank := f.key !in values || Visible(values[f.key]) == "";
      && (IsBad(f, values) <==>
            if blank then f.required
            else f.isUrl && !exists rest ::
                   Trim(values[f.key]) == "http://" + rest || Trim(values[f.key]) == "https://" + rest)
      && (IsGood(f, values) <==> !blank && !IsBad(f, values))
  {
    hide Trim, Visible;
    if f.key in values {
      var v := Trim(values[f.key]);
      assert "http://" <= v ==> v == "http://" + v[7..];
      assert "https://" <= v ==> v == "https://" + v[8..];
      BlankIsTrimmedAway(values[f.key]);
    }
  }

  /** The errors of a form are those of its fields, one by one and in order. */
  lemma {:induction false} ErrorsOfAForm(a: seq<FormField>, b: seq<FormField>, values: Values)
    ensures BadKeys(a + b, values) == BadKeys(a, values) + BadKeys(b, values)
    decreases |b|
  {
    hide IsBad, BadKeys;
    NoFields(values);
    if b == [] {
      assert a + b == a;
    } else {
      var c, f := b[..|b| - 1], b[|b| - 1];
      ErrorsOfAForm(a, c, values);
      assert b == c + [f] && a + b == a + c + [f];
      OneMoreField(a + c, f, values);
      OneMoreField(c, f, values);
    }
  }
}
