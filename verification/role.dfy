/**
  The `role` relation (models/role.model.js): an auto-incremented integer primary
  key and a `title` that is not null, unique and, by validator, not empty.
 */
module RoleModel {
  import opened Tables

  /** The `unique: true` constraint on `title`. */
  predicate TitlesUnique(roles: seq<Role>) {
    forall i, j :: 0 <= i < j < |roles| ==> roles[i].title != roles[j].title
  }

  /**
    A character of the class `[\s\t\r\n]` of a JavaScript regular expression: the ASCII
    blanks, no-break space, the Unicode space separators, the line and paragraph
    separators and the byte-order mark.
   */
  predicate JsWhitespace(c: char) {
    || c == ' ' || c == '\t' || c == '\n' || c == '\r'
    || c as int == 0x0B || c as int == 0x0C || c as int == 0xA0 || c as int == 0x1680
    || 0x2000 <= c as int <= 0x200A
    || c as int == 0x2028 || c as int == 0x2029 || c as int == 0x202F || c as int == 0x205F
    || c as int == 0x3000 || c as int == 0xFEFF
  }

  /** What the ORM's `notEmpty` validator refuses: a value made of whitespace only, the empty one included. */
  predicate Blank(s: string) {
    forall i :: 0 <= i < |s| ==> JsWhitespace(s[i])
  }

  /**
    `role.create({ title })`: the ORM checks `allowNull: false` and the `notEmpty`
    validator; the database then enforces the unique title and assigns the next id.
   */
  function Create(db: Db, title: Option<string>): (r: Result<Role>)
    ensures r.Ok? ==> title == Some(r.value.title) && !Blank(r.value.title) && r.value.title != ""
    ensures r.Ok? ==> r.value.id == |db.roles| + 1
    ensures r.Ok? ==> forall old_role <- db.roles :: old_role.title != r.value.title
  {
    if title.None? then Err(NotNullViolation)
    else if Blank(title.value) then Err(NotEmptyViolation)
    else if exists old_role <- db.roles :: old_role.title == title.value then Err(UniqueViolation)
    else Ok(Role(|db.roles| + 1, title.value))
  }

  /**
    `role.bulkCreate(rows)`: the ORM runs no validators for a bulk insert unless asked to,
    so only the database's constraints apply, to the whole statement at once: every
    title must differ from the stored ones and from the other new ones.
   */
  function BulkCreate(db: Db, titles: seq<string>): (r: Result<seq<Role>>)
    ensures r.Ok? ==> |r.value| == |titles|
    ensures r.Ok? ==> forall i :: 0 <= i < |titles| ==>
      r.value[i] == Role(|db.roles| + i + 1, titles[i])
    ensures r.Ok? ==> TitlesUnique(db.roles + r.value)
    ensures r.Ok? ==> TitlesDistinct(titles) && forall t <- titles, stored <- db.roles :: stored.title != t
    ensures TitlesUnique(db.roles) && TitlesDistinct(titles) && (forall t <- titles, stored <- db.roles :: stored.title != t)
      ==> r.Ok?
    ensures r.Err? ==> r.error == UniqueViolation
  {
    var created := NumberedRoles(|db.roles|, titles);
    BulkTitlesUnique(db.roles, titles);
    if TitlesUnique(db.roles + created) then Ok(created) else Err(UniqueViolation)
  }

  /** No title occurs twice in the list. */
  predicate TitlesDistinct(titles: seq<string>) {
    forall i, j :: 0 <= i < j < |titles| ==> titles[i] != titles[j]
  }

  /**
    The stored roles followed by the numbered new ones have unique titles exactly when the
    new titles are distinct and none is stored already, given that the stored titles are unique.
   */
  lemma BulkTitlesUnique(roles: seq<Role>, titles: seq<string>)
    ensures var all := roles + NumberedRoles(|roles|, titles);
      TitlesUnique(all) ==> TitlesDistinct(titles) && forall t <- titles, stored <- roles :: stored.title != t
    ensures var all := roles + NumberedRoles(|roles|, titles);
      TitlesUnique(roles) && TitlesDistinct(titles) && (forall t <- titles, stored <- roles :: stored.title != t)
      ==> TitlesUnique(all)
  {
    var created := NumberedRoles(|roles|, titles);
    var all := roles + created;
    var n := |roles|;
    if TitlesUnique(all) {
      forall i, j | 0 <= i < j < |titles| ensures titles[i] != titles[j] {
        assert all[n + i].title == titles[i] && all[n + j].title == titles[j];
      }
      forall t <- titles, stored <- roles ensures stored.title != t {
        var i :| 0 <= i < |titles| && titles[i] == t;
        var k :| 0 <= k < n && roles[k] == stored;
        assert all[k] == stored && all[n + i].title == t;
      }
    }
    if TitlesUnique(roles) && TitlesDistinct(titles) && (forall t <- titles, stored <- roles :: stored.title != t) {
      forall i, j | 0 <= i < j < |all| ensures all[i].title != all[j].title {
        if j < n {
          assert all[i] == roles[i] && all[j] == roles[j];
        } else if i < n {
          assert all[i] == roles[i] && all[j].title == titles[j - n];
          assert roles[i] in roles && titles[j - n] in titles;
        } else {
          assert all[i].title == titles[i - n] && all[j].title == titles[j - n];
        }
      }
    }
  }

  /** The rows a bulk insert creates after `count` existing ones, ids continuing from there. */
  function NumberedRoles(count: nat, titles: seq<string>): seq<Role> {
    seq(|titles|, i requires 0 <= i < |titles| => Role(count + i + 1, titles[i]))
  }

  /** Numbering keeps the titles: distinct titles give unique roles. */
  lemma NumberedRolesUnique(count: nat, titles: seq<string>)
    requires TitlesDistinct(titles)
    ensures TitlesUnique(NumberedRoles(count, titles))
  {
  }

  /** A null title is refused. */
  lemma NullTitleRejected(db: Db)
    ensures Create(db, None) == Err(NotNullViolation)
  {
  }

  /** An empty title, or one of blanks only, fails the `notEmpty` validator. */
  lemma BlankTitleRejected(db: Db, title: string)
    requires Blank(title)
    ensures Create(db, Some(title)) == Err(NotEmptyViolation)
  {
  }

  /** A title with a visible character passes the validator and, when no role holds it, is stored. */
  lemma VisibleTitleAccepted(db: Db, title: string, k: nat)
    requires k < |title| && !JsWhitespace(title[k])
    requires forall stored <- db.roles :: stored.title != title
    ensures Create(db, Some(title)) == Ok(Role(|db.roles| + 1, title))
  {
  }

  /** A title already held by a role violates `unique: true`. */
  lemma DuplicateTitleRejected(db: Db, k: nat)
    requires k < |db.roles| && !Blank(db.roles[k].title)
    ensures Create(db, Some(db.roles[k].title)) == Err(UniqueViolation)
  {
    assert db.roles[k] in db.roles;
  }

  /** A bulk insert skips the validators: an empty title goes in. */
  lemma BulkCreateSkipsNotEmpty()
    ensures BulkCreate(EmptyDb, [""]) == Ok([Role(1, "")])
  {
    assert NumberedRoles(0, [""]) == [Role(1, "")];
  }

  /** With auto-increment keys no two roles share an id, and a created role's id is new. */
  lemma RoleIdsDistinct(db: Db, title: Option<string>)
    requires IdsAutoIncremented(db)
    ensures forall i, j :: 0 <= i < j < |db.roles| ==> db.roles[i].id != db.roles[j].id
    ensures Create(db, title).Ok? ==> forall r <- db.roles :: r.id != Create(db, title).value.id
  {
  }

  /** A successful create keeps the titles unique. */
  lemma CreateKeepsTitlesUnique(db: Db, title: Option<string>)
    requires TitlesUnique(db.roles)
    requires Create(db, title).Ok?
    ensures TitlesUnique(db.roles + [Create(db, title).value])
  {
    var roles' := db.roles + [Create(db, title).value];
    forall i, j | 0 <= i < j < |roles'| ensures roles'[i].title != roles'[j].title {
      if j == |roles'| - 1 {
        assert roles'[i] in db.roles;
      }
    }
  }
}
