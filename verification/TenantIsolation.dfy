/**
 * Tenant isolation in two layers: the guard that the ORM runs before it writes,
 * and the PostgreSQL row policy, which knows the scope only through text
 * settings of the transaction.
 */
module TenantIsolation {
  import opened Wrappers
  import opened Strings
  import opened Uuids

  datatype TenantScope = TenantScope(
    tenantId: Uuid,
    dataDomainId: Uuid,
    projectIds: set<Uuid>,
    decisionUnitIds: set<Uuid>,
    allProjects: bool,
    allDecisionUnits: bool)

  datatype Row = Row(
    tenantId: Uuid,
    dataDomainId: Uuid,
    projectId: Option<Uuid>,
    decisionUnitId: Option<Uuid>)

  /** The guard: true when it does not raise. */
  predicate Allows(scope: TenantScope, row: Row) {
    && row.tenantId == scope.tenantId && row.dataDomainId == scope.dataDomainId
    && (row.projectId.Some? && !scope.allProjects ==> row.projectId.value in scope.projectIds)
    && (row.decisionUnitId.Some? && !scope.allDecisionUnits ==> row.decisionUnitId.value in scope.decisionUnitIds)
  }

  // ---------------------------------------------------------------- lists as comma-joined text

  /** string_to_array(s, ','): the empty text is the empty array. */
  function StringToArray(s: string): seq<string> {
    if s == "" then [] else SplitAt(s, ',')
  }

  function Texts(ids: seq<Uuid>): (r: seq<string>)
    ensures |r| == |ids| && forall i | 0 <= i < |r| :: r[i] == Text(ids[i])
  {
    seq(|ids|, i requires 0 <= i < |ids| => Text(ids[i]))
  }

  /** Membership survives the passage through text, for the empty list too. */
  lemma MemberThroughText(ids: seq<Uuid>, id: Uuid)
    ensures Text(id) in StringToArray(Join(Texts(ids), ',')) <==> id in ids
  {
    var texts := Texts(ids);
    if ids != [] {
      forall i | 0 <= i < |texts| ensures ',' !in texts[i] {
        TextIsPlain(ids[i]);
      }
      SplitUndoesJoin(texts, ',');
      assert Join(texts, ',') != "" by {
        assert SplitAt("", ',') == [""] && |texts[0]| == 36;
      }
    }
    if Text(id) in texts {
      var i :| 0 <= i < |texts| && texts[i] == Text(id);
      TextInjective(ids[i], id);
    }
    if id in ids {
      var i :| 0 <= i < |ids| && ids[i] == id;
      assert texts[i] == Text(id);
    }
  }

  // ---------------------------------------------------------------- the row policy

  /** SQL truth values. */
  datatype Truth = True | False | Unknown

  function Is(b: bool): Truth {
    if b then True else False
  }

  function And(x: Truth, y: Truth): Truth {
    if x == False || y == False then False else if x == True && y == True then True else Unknown
  }

  function Or(x: Truth, y: Truth): Truth {
    if x == True || y == True then True else if x == False && y == False then False else Unknown
  }

  /** Settings of the transaction; None reads as NULL. */
  datatype Settings = Settings(
    tenantId: Option<string>,
    dataDomainId: Option<string>,
    projectIds: Option<string>,
    decisionUnitIds: Option<string>,
    allProjects: Option<string>,
    allDecisionUnits: Option<string>)

  function Equals(text: string, setting: Option<string>): Truth {
    if setting.None? then Unknown else Is(text == setting.value)
  }

  function EqualsAny(text: string, setting: Option<string>): Truth {
    if setting.None? then Unknown else Is(text in StringToArray(setting.value))
  }

  function Column(id: Option<Uuid>, all: Option<string>, ids: Option<string>): Truth {
    match id
    case None => True
    case Some(u) => Or(Equals("true", all), EqualsAny(Text(u), ids))
  }

  /** The USING and WITH CHECK expression; a row passes when it is true. */
  function Policy(s: Settings, row: Row): Truth {
    And(And(Equals(Text(row.tenantId), s.tenantId), Equals(Text(row.dataDomainId), s.dataDomainId)),
        And(Column(row.projectId, s.allProjects, s.projectIds),
            Column(row.decisionUnitId, s.allDecisionUnits, s.decisionUnitIds)))
  }

  function TrueOrFalse(b: bool): string {
    if b then "true" else "false"
  }

  /** What the transaction writes; the ids are listed in some order without loss. */
  function Written(scope: TenantScope, projects: seq<Uuid>, units: seq<Uuid>): Settings {
    Settings(Some(Text(scope.tenantId)), Some(Text(scope.dataDomainId)), Some(Join(Texts(projects), ',')),
             Some(Join(Texts(units), ',')), Some(TrueOrFalse(scope.allProjects)),
             Some(TrueOrFalse(scope.allDecisionUnits)))
  }

  ghost predicate Lists(ids: seq<Uuid>, expected: set<Uuid>) {
    forall id :: id in ids <==> id in expected
  }

  lemma ColumnMatches(id: Option<Uuid>, all: bool, ids: seq<Uuid>, expected: set<Uuid>)
    requires Lists(ids, expected)
    ensures Column(id, Some(TrueOrFalse(all)), Some(Join(Texts(ids), ','))) ==
            Is(id.Some? && !all ==> id.value in expected)
  {
    assert "true" != "false" by {
      assert "true"[0] == 't' && "false"[0] == 'f';
    }
    if id.Some? {
      MemberThroughText(ids, id.value);
    }
  }

  /** Main result: the guard and the policy decide every row alike, whatever the order of the id lists. */
  lemma GuardMatchesPolicy(scope: TenantScope, projects: seq<Uuid>, units: seq<Uuid>, row: Row)
    requires Lists(projects, scope.projectIds) && Lists(units, scope.decisionUnitIds)
    ensures Allows(scope, row) <==> Policy(Written(scope, projects, units), row) == True
  {
    ColumnMatches(row.projectId, scope.allProjects, projects, scope.projectIds);
    ColumnMatches(row.decisionUnitId, scope.allDecisionUnits, units, scope.decisionUnitIds);
    if Text(row.tenantId) == Text(scope.tenantId) {
      TextInjective(row.tenantId, scope.tenantId);
    }
    if Text(row.dataDomainId) == Text(scope.dataDomainId) {
      TextInjective(row.dataDomainId, scope.dataDomainId);
    }
  }

  /** How a setting of the transaction reads outside one: as NULL, or as the empty text once it had been set. */
  predicate IsReset(setting: Option<string>) {
    setting == None || setting == Some("")
  }

  /** Outside a tenant transaction no row passes the policy, whatever the other settings say. */
  lemma UnboundSeesNothing(s: Settings, row: Row)
    requires IsReset(s.tenantId) || IsReset(s.dataDomainId)
    ensures Policy(s, row) != True
  {
    TextIsPlain(row.tenantId);
    TextIsPlain(row.dataDomainId);
    assert |Text(row.tenantId)| == 36 && |Text(row.dataDomainId)| == 36;
  }
}
