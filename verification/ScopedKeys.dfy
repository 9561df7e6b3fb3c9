/** Keys of the object store and of the cache, which carry the tenant scope in their text. */
module ScopedKeys {
  import opened Wrappers
  import opened Strings
  import opened Uuids
  import opened TenantIsolation

  /** Where an object belongs below its tenant and domain. */
  datatype Place = Place(projectId: Option<Uuid>, decisionUnitId: Option<Uuid>)

  predicate Permitted(scope: TenantScope, place: Place) {
    Allows(scope, Row(scope.tenantId, scope.dataDomainId, place.projectId, place.decisionUnitId))
  }

  function OrElse(id: Option<Uuid>, otherwise: string): string {
    if id.Some? then Text(id.value) else otherwise
  }

  // ---------------------------------------------------------------- namespaces

  /** namespace.strip("/") */
  function WithoutOuterSlashes(namespace: string): string {
    StripRight(StripLeft(namespace, c => c == '/'), c => c == '/')
  }

  /** str.replace("..", ""): one pass from the left. */
  function RemoveDoubleDots(s: string): string {
    if |s| < 2 then s
    else if s[0] == '.' && s[1] == '.' then RemoveDoubleDots(s[2..])
    else [s[0]] + RemoveDoubleDots(s[1..])
  }

  predicate HasDoubleDot(s: string) {
    exists i | 0 <= i < |s| - 1 :: s[i] == '.' && s[i + 1] == '.'
  }

  /** A dot that survives is followed by nothing or by the non-dot that followed it. */
  lemma {:induction false} SurvivorsHead(s: string)
    ensures s != "" && s[0] != '.' ==> RemoveDoubleDots(s) != "" && RemoveDoubleDots(s)[0] == s[0]
  {
  }

  /** One pass is enough: removing double dots never joins two others. */
  lemma {:induction false} NoDoubleDotLeft(s: string)
    ensures !HasDoubleDot(RemoveDoubleDots(s))
    decreases |s|
  {
    if |s| >= 2 {
      if s[0] == '.' && s[1] == '.' {
        NoDoubleDotLeft(s[2..]);
      } else {
        NoDoubleDotLeft(s[1..]);
        SurvivorsHead(s[1..]);
        var rest := RemoveDoubleDots(s[1..]);
        var all := [s[0]] + rest;
        forall i | 0 <= i < |all| - 1 ensures !(all[i] == '.' && all[i + 1] == '.') {
          if i > 0 {
            assert all[i] == rest[i - 1] && all[i + 1] == rest[i];
          }
        }
      }
    }
  }

  function SafeNamespace(namespace: string): string {
    RemoveDoubleDots(WithoutOuterSlashes(namespace))
  }

  /** The namespace part of a storage key contains no "..". */
  lemma NamespaceHasNoDoubleDot(namespace: string)
    ensures !HasDoubleDot(SafeNamespace(namespace))
  {
    NoDoubleDotLeft(WithoutOuterSlashes(namespace));
  }

  // ---------------------------------------------------------------- storage keys

  /** None when the scope does not allow the place. */
  function StorageKey(scope: TenantScope, namespace: string, objectId: Uuid, place: Place): Option<string> {
    if !Permitted(scope, place) then None
    else Some(StorageText(scope.tenantId, scope.dataDomainId, place, SafeNamespace(namespace), objectId))
  }

  function StorageText(tenantId: Uuid, dataDomainId: Uuid, place: Place, namespace: string, objectId: Uuid): string {
    "tenants/" + (Text(tenantId) + ("/domains/" + (Text(dataDomainId) + ("/projects/"
      + (OrElse(place.projectId, "_tenant") + ("/units/"
      + (OrElse(place.decisionUnitId, "_project") + ("/" + (namespace + ("/" + Text(objectId)))))))))))
  }

  /** An id and its placeholder are told apart by their first character. */
  lemma PeelId(x: Option<Uuid>, rest: string, y: Option<Uuid>, rest': string, otherwise: string)
    requires otherwise != "" && otherwise[0] == '_'
    requires OrElse(x, otherwise) + rest == OrElse(y, otherwise) + rest'
    ensures x == y && rest == rest'
  {
    var a, b := OrElse(x, otherwise), OrElse(y, otherwise);
    assert (a + rest)[0] == a[0] && (b + rest')[0] == b[0];
    if x.Some? {
      TextIsPlain(x.value);
      assert Text(x.value)[0] != '_';
    }
    if y.Some? {
      TextIsPlain(y.value);
      assert Text(y.value)[0] != '_';
    }
    Peel(a, rest, b, rest');
    if x.Some? {
      TextInjective(x.value, y.value);
    }
  }

  /** The part after the last 36 characters is the namespace; those characters are the object. */
  lemma PeelTail(namespace: string, id: Uuid, namespace': string, id': Uuid)
    requires namespace + ("/" + Text(id)) == namespace' + ("/" + Text(id'))
    ensures namespace == namespace' && id == id'
  {
    var all := namespace + ("/" + Text(id));
    assert |namespace| == |namespace'|;
    Peel(namespace, "/" + Text(id), namespace', "/" + Text(id'));
    Peel("/", Text(id), "/", Text(id'));
    TextInjective(id, id');
  }

  lemma StorageTextInjective(t: Uuid, d: Uuid, p: Place, n: string, o: Uuid, t': Uuid, d': Uuid, p': Place,
                             n': string, o': Uuid)
    requires StorageText(t, d, p, n, o) == StorageText(t', d', p', n', o')
    ensures t == t' && d == d' && p == p' && n == n' && o == o'
  {
    var u, u' := "/" + (n + ("/" + Text(o))), "/" + (n' + ("/" + Text(o')));
    var v := "/units/" + (OrElse(p.decisionUnitId, "_project") + u);
    var v' := "/units/" + (OrElse(p'.decisionUnitId, "_project") + u');
    var w := "/projects/" + (OrElse(p.projectId, "_tenant") + v);
    var w' := "/projects/" + (OrElse(p'.projectId, "_tenant") + v');
    var x, x' := "/domains/" + (Text(d) + w), "/domains/" + (Text(d') + w');
    Peel("tenants/", Text(t) + x, "tenants/", Text(t') + x');
    Peel(Text(t), x, Text(t'), x');
    TextInjective(t, t');
    Peel("/domains/", Text(d) + w, "/domains/", Text(d') + w');
    Peel(Text(d), w, Text(d'), w');
    TextInjective(d, d');
    Peel("/projects/", OrElse(p.projectId, "_tenant") + v, "/projects/", OrElse(p'.projectId, "_tenant") + v');
    PeelId(p.projectId, v, p'.projectId, v', "_tenant");
    Peel("/units/", OrElse(p.decisionUnitId, "_project") + u, "/units/", OrElse(p'.decisionUnitId, "_project") + u');
    PeelId(p.decisionUnitId, u, p'.decisionUnitId, u', "_project");
    Peel("/", n + ("/" + Text(o)), "/", n' + ("/" + Text(o')));
    PeelTail(n, o, n', o');
  }

  /** Main result: objects of different tenants, domains, places or ids never share a key, whatever the namespaces. */
  lemma StorageKeysNeverCollide(scope: TenantScope, namespace: string, objectId: Uuid, place: Place,
                                scope': TenantScope, namespace': string, objectId': Uuid, place': Place)
    requires StorageKey(scope, namespace, objectId, place).Some?
    requires StorageKey(scope, namespace, objectId, place) == StorageKey(scope', namespace', objectId', place')
    ensures scope.tenantId == scope'.tenantId && scope.dataDomainId == scope'.dataDomainId
    ensures place == place' && objectId == objectId'
    ensures SafeNamespace(namespace) == SafeNamespace(namespace')
  {
    StorageTextInjective(scope.tenantId, scope.dataDomainId, place, SafeNamespace(namespace), objectId,
                         scope'.tenantId, scope'.dataDomainId, place', SafeNamespace(namespace'), objectId');
  }

  // ---------------------------------------------------------------- cache keys

  predicate IsSafeStart(c: char) {
    'a' <= c <= 'z' || '0' <= c <= '9'
  }

  /** The pattern [a-z0-9][a-z0-9._-]{0,99}, matched in full. */
  predicate IsSafeSegment(s: string) {
    && 1 <= |s| <= 100
    && IsSafeStart(s[0])
    && forall i | 0 < i < |s| :: IsSafeStart(s[i]) || s[i] == '.' || s[i] == '_' || s[i] == '-'
  }

  datatype CacheKeyResult = Key(text: string) | UnsafeNamespace | ScopeViolation

  function CacheKey(scope: TenantScope, namespace: string, resource: string, place: Place): CacheKeyResult {
    if !IsSafeSegment(namespace) then UnsafeNamespace
    else if !Permitted(scope, place) then ScopeViolation
    else Key(CacheText(scope.tenantId, scope.dataDomainId, place, namespace, resource))
  }

  function CacheText(tenantId: Uuid, dataDomainId: Uuid, place: Place, namespace: string, resource: string): string {
    "biaice:" + (Text(tenantId) + (":" + (Text(dataDomainId) + (":" + (OrElse(place.projectId, "_tenant")
      + (":" + (OrElse(place.decisionUnitId, "_project") + (":" + (namespace + (":" + resource))))))))))
  }

  lemma CacheTextInjective(t: Uuid, d: Uuid, p: Place, n: string, r: string, t': Uuid, d': Uuid, p': Place,
                           n': string, r': string)
    requires ':' !in n && ':' !in n'
    requires CacheText(t, d, p, n, r) == CacheText(t', d', p', n', r')
    ensures t == t' && d == d' && p == p' && n == n' && r == r'
  {
    var u, u' := n + (":" + r), n' + (":" + r');
    var v, v' := OrElse(p.decisionUnitId, "_project") + (":" + u), OrElse(p'.decisionUnitId, "_project") + (":" + u');
    var w, w' := OrElse(p.projectId, "_tenant") + (":" + v), OrElse(p'.projectId, "_tenant") + (":" + v');
    var x, x' := Text(d) + (":" + w), Text(d') + (":" + w');
    Peel("biaice:", Text(t) + (":" + x), "biaice:", Text(t') + (":" + x'));
    Peel(Text(t), ":" + x, Text(t'), ":" + x');
    TextInjective(t, t');
    Peel(":", x, ":", x');
    Peel(Text(d), ":" + w, Text(d'), ":" + w');
    TextInjective(d, d');
    Peel(":", w, ":", w');
    PeelId(p.projectId, ":" + v, p'.projectId, ":" + v', "_tenant");
    Peel(":", v, ":", v');
    PeelId(p.decisionUnitId, ":" + u, p'.decisionUnitId, ":" + u', "_project");
    Peel(":", u, ":", u');
    PeelSegment(':', n, r, n', r');
  }

  /** Main result: a cache key determines everything it was made from. */
  lemma CacheKeysAreInjective(scope: TenantScope, namespace: string, resource: string, place: Place,
                              scope': TenantScope, namespace': string, resource': string, place': Place)
    requires CacheKey(scope, namespace, resource, place).Key?
    requires CacheKey(scope, namespace, resource, place) == CacheKey(scope', namespace', resource', place')
    ensures scope.tenantId == scope'.tenantId && scope.dataDomainId == scope'.dataDomainId
    ensures place == place' && namespace == namespace' && resource == resource'
  {
    CacheTextInjective(scope.tenantId, scope.dataDomainId, place, namespace, resource,
                       scope'.tenantId, scope'.dataDomainId, place', namespace', resource');
  }

  // ---------------------------------------------------------------- what the keys show

  /** The place is within the scope. */
  predicate IsInside(scope: TenantScope, place: Place) {
    && (place.projectId.Some? ==> scope.allProjects || place.projectId.value in scope.projectIds)
    && (place.decisionUnitId.Some? ==> scope.allDecisionUnits || place.decisionUnitId.value in scope.decisionUnitIds)
  }

  /** Keys are made for places within the scope, and for no others. */
  lemma KeysStayInside(scope: TenantScope, namespace: string, objectId: Uuid, resource: string, place: Place)
    ensures StorageKey(scope, namespace, objectId, place).Some? <==> IsInside(scope, place)
    ensures CacheKey(scope, namespace, resource, place) == ScopeViolation <==>
            IsSafeSegment(namespace) && !IsInside(scope, place)
    ensures CacheKey(scope, namespace, resource, place) == UnsafeNamespace <==> !IsSafeSegment(namespace)
  {
  }

  lemma OneMore(first: string, rest: seq<string>, separator: char, text: string)
    requires rest != [] && Join(rest, separator) == text
    ensures Join([first] + rest, separator) == first + ([separator] + text)
  {
    assert ([first] + rest)[1..] == rest;
  }

  lemma NameAndValue(name: string, value: string, rest: seq<string>, text: string)
    requires rest != [] && Join(rest, '/') == text
    ensures Join([name, value] + rest, '/') == (name + "/") + (value + ("/" + text))
  {
    OneMore(value, rest, '/', text);
    OneMore(name, [value] + rest, '/', value + ("/" + text));
    assert [name, value] + rest == [name] + ([value] + rest);
  }

  lemma PathText(t: string, d: string, p: string, u: string, n: string, o: string)
    ensures Join(["tenants", t, "domains", d, "projects", p, "units", u, n, o], '/') ==
            "tenants/" + (t + ("/domains/" + (d + ("/projects/" + (p + ("/units/" + (u + ("/" + (n + ("/" + o))))))))))
  {
    var text := u + ("/" + (n + ("/" + o)));
    LastParts(p, u, n, o);
    var projects := ["projects", p, "units", u, n, o];
    var projectsText := "projects/" + (p + ("/units/" + text));
    NameAndValue("domains", d, projects, projectsText);
    var domains := ["domains", d] + projects;
    var domainsText := "domains/" + (d + ("/" + projectsText));
    NameAndValue("tenants", t, domains, domainsText);
    assert ["tenants", t] + domains == ["tenants", t, "domains", d, "projects", p, "units", u, n, o];
    assert "/" + projectsText == "/projects/" + (p + ("/units/" + text));
    assert "/" + domainsText == "/domains/" + (d + ("/" + projectsText));
  }

  lemma LastParts(p: string, u: string, n: string, o: string)
    ensures Join(["projects", p, "units", u, n, o], '/') ==
            "projects/" + (p + ("/units/" + (u + ("/" + (n + ("/" + o))))))
  {
    var text := n + ("/" + o);
    OneMore(n, [o], '/', o);
    NameAndValue("units", u, [n, o], text);
    var units := ["units", u] + [n, o];
    var unitsText := "units/" + (u + ("/" + text));
    NameAndValue("projects", p, units, unitsText);
    assert ["projects", p] + units == ["projects", p, "units", u, n, o];
    assert "/" + unitsText == "/units/" + (u + ("/" + text));
  }

  /** A storage key is the path tenants/<id>/domains/<id>/projects/<id>/units/<id>/<namespace>/<object>. */
  lemma StorageKeyIsPath(scope: TenantScope, namespace: string, objectId: Uuid, place: Place)
    requires IsInside(scope, place)
    ensures StorageKey(scope, namespace, objectId, place) ==
            Some(Join(["tenants", Text(scope.tenantId), "domains", Text(scope.dataDomainId),
                       "projects", if place.projectId.Some? then Text(place.projectId.value) else "_tenant",
                       "units", if place.decisionUnitId.Some? then Text(place.decisionUnitId.value) else "_project",
                       SafeNamespace(namespace), Text(objectId)], '/'))
  {
    PathText(Text(scope.tenantId), Text(scope.dataDomainId), OrElse(place.projectId, "_tenant"),
             OrElse(place.decisionUnitId, "_project"), SafeNamespace(namespace), Text(objectId));
  }

  lemma ListText(t: string, d: string, p: string, u: string, n: string, r: string)
    ensures Join(["biaice", t, d, p, u, n, r], ':') ==
            "biaice:" + (t + (":" + (d + (":" + (p + (":" + (u + (":" + (n + (":" + r))))))))))
  {
    var two := n + (":" + r);
    OneMore(n, [r], ':', r);
    var three := u + (":" + two);
    OneMore(u, [n, r], ':', two);
    var four := p + (":" + three);
    OneMore(p, [u, n, r], ':', three);
    var five := d + (":" + four);
    OneMore(d, [p, u, n, r], ':', four);
    var six := t + (":" + five);
    OneMore(t, [d, p, u, n, r], ':', five);
    OneMore("biaice", [t, d, p, u, n, r], ':', six);
    assert "biaice" + (":" + six) == "biaice:" + six;
  }

  /** A cache key lists biaice, the tenant, the domain, the project, the unit, the namespace and the resource. */
  lemma CacheKeyIsList(scope: TenantScope, namespace: string, resource: string, place: Place)
    requires IsInside(scope, place) && IsSafeSegment(namespace)
    ensures CacheKey(scope, namespace, resource, place) ==
            Key(Join(["biaice", Text(scope.tenantId), Text(scope.dataDomainId),
                      if place.projectId.Some? then Text(place.projectId.value) else "_tenant",
                      if place.decisionUnitId.Some? then Text(place.decisionUnitId.value) else "_project",
                      namespace, resource], ':'))
  {
    ListText(Text(scope.tenantId), Text(scope.dataDomainId), OrElse(place.projectId, "_tenant"),
             OrElse(place.decisionUnitId, "_project"), namespace, resource);
  }
}
