/** The create-project form of the projects list: what its submit handler
    does with the typed name and the chosen database, given the projects
    already listed. */
module ProjectsList {
  import opened Text
  import opened FrontendUtils
  import opened ProjectsUtils

  /** The database select: nothing chosen yet, or `postgres`. */
  datatype Database = Unset | Postgres

  /** A listed project as the form sees it: its directory and its name. */
  datatype Listed = Listed(dir: string, name: string)

  /** What `CreateProjectSchema` keeps of the form: the description is not
      part of it and is dropped. */
  datatype CreatePayload = CreatePayload(dir: string, name: string, database: string)

  /** The outcome of a submit: one of the three warnings, or the payload
      sent to `CreateProject`. */
  datatype Submit = NameRequired | DatabaseRequired | AlreadyExists | Create(payload: CreatePayload)

  /** An existing project clashes with the trimmed name when it has the same
      directory or its name, lower-cased, contains the trimmed name,
      lower-cased. */
  predicate Clashes(p: Listed, trimmed: string) {
    p.dir == NameToDir(trimmed) || Contains(Lower(p.name), Lower(trimmed))
  }

  predicate IsDuplicate(existing: seq<Listed>, trimmed: string) {
    exists k :: 0 <= k < |existing| && Clashes(existing[k], trimmed)
  }

  /** `handleSubmit`: the untrimmed name must be non-empty, then a database
      must be chosen, then the trimmed name must not clash with a listed
      project. */
  function HandleSubmit(name: string, database: Database, existing: seq<Listed>): (r: Submit)
    ensures name == "" ==> r == NameRequired
    ensures name != "" && database == Unset ==> r == DatabaseRequired
    ensures r.Create? ==> database.Postgres? && r.payload.database == "postgres"
    ensures r.Create? ==> r.payload.name == Trim(name, JsSpace) && r.payload.dir == NameToDir(r.payload.name)
  {
    if name == "" then NameRequired
    else if database == Unset then DatabaseRequired
    else
      var trimmed := Trim(name, JsSpace);
      if IsDuplicate(existing, trimmed) then AlreadyExists
      else Create(CreatePayload(NameToDir(trimmed), trimmed, "postgres"))
  }

  /** With a name and a database given, the form refuses exactly the names
      that clash with a listed project. */
  lemma AlreadyExistsIffClash(name: string, existing: seq<Listed>)
    requires name != ""
    ensures HandleSubmit(name, Postgres, existing) == AlreadyExists <==>
      exists p :: p in existing && Clashes(p, Trim(name, JsSpace))
  {
    var trimmed := Trim(name, JsSpace);
    if IsDuplicate(existing, trimmed) {
      var k :| 0 <= k < |existing| && Clashes(existing[k], trimmed);
      assert existing[k] in existing;
    }
  }

  /** A created project gets a directory no listed project has, and a name
      no listed name contains, ignoring ASCII case. */
  lemma CreatedIsFresh(name: string, database: Database, existing: seq<Listed>)
    requires HandleSubmit(name, database, existing).Create?
    ensures forall p :: p in existing ==> p.dir != HandleSubmit(name, database, existing).payload.dir
    ensures forall p :: p in existing ==> !Contains(Lower(p.name), Lower(HandleSubmit(name, database, existing).payload.name))
  {
    var trimmed := Trim(name, JsSpace);
    forall p | p in existing ensures !Clashes(p, trimmed) {
      var k :| 0 <= k < |existing| && existing[k] == p;
    }
  }

  /** A name made of whitespace alone passes the emptiness check but trims
      to nothing, and nothing is contained in every name: it is refused as a
      duplicate whenever any project is listed, and otherwise sent with an
      empty name and directory. */
  lemma WhitespaceOnlyName(name: string, existing: seq<Listed>)
    requires name != "" && forall i :: 0 <= i < |name| ==> name[i] in JsSpace
    ensures existing != [] ==> HandleSubmit(name, Postgres, existing) == AlreadyExists
    ensures existing == [] ==> HandleSubmit(name, Postgres, existing) == Create(CreatePayload("", "", "postgres"))
  {
    var trimmed := Trim(name, JsSpace);
    assert trimmed == [];
    if existing != [] {
      assert OccursAt(Lower(existing[0].name), Lower(trimmed), 0);
      assert Clashes(existing[0], trimmed);
    }
  }

  /** A project sent by the form passes the back end's option check exactly
      when its trimmed name is not empty; the dropped description does not
      matter to it. */
  lemma PayloadPassesValidation(name: string, existing: seq<Listed>)
    requires HandleSubmit(name, Postgres, existing).Create?
    ensures var p := HandleSubmit(name, Postgres, existing).payload;
      ValidateProjectOptions(NewProjectOptions(p.dir, p.name, p.database, "")).None? <==> p.name != ""
  {
  }
}
