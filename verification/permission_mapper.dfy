/**
 * The permission-string parser and the mapper that feeds the catalog.
 * A permission string has the shape `action:resource:scope`; the parser keeps
 * the first three colon-separated segments and derives an id from them.
 */
module PermissionMapper {
  import opened Types
  import opened Text
  import opened PermissionRegistry

  /** How a JavaScript template literal renders an optional string: an absent
      value becomes the text "undefined". */
  function Render(o: Option<string>): string {
    match o
    case Some(v) => v
    case None => "undefined"
  }

  /** The derived id `action:resource`, followed by `:scope` only when the scope is a
      non-empty string (an empty scope is falsy and is left out). */
  function DeriveId(action: string, resource: Option<string>, scope: Option<string>): string {
    action + ":" + Render(resource) + (if scope.Some? && scope.value != "" then ":" + scope.value else "")
  }

  /** Parses `action:resource:scope`. Segments missing from the input stay absent;
      segments after the third are dropped. */
  function ParsePermissionString(s: string): Permission
  {
    var parts := Split(s, ':');
    var action := parts[0];
    var resource := if |parts| > 1 then Some(parts[1]) else None;
    var scope := if |parts| > 2 then Some(parts[2]) else None;
    Permission(DeriveId(action, resource, scope), action, resource, scope)
  }

  /** The parsed fields are the leading colon-free segments of the input: the input
      is the action alone, or `action:resource`, or starts with `action:resource:scope`
      followed by nothing or by a further colon. The id is derived from them. */
  lemma ParseKeepsLeadingSegments(s: string)
    ensures var p := ParsePermissionString(s);
      && ':' !in p.action
      && (p.resource.Some? ==> ':' !in p.resource.value)
      && (p.resourceScope.Some? ==> ':' !in p.resourceScope.value)
      && (p.resource.None? ==> p.resourceScope.None? && s == p.action)
      && (p.resource.Some? && p.resourceScope.None? ==> s == p.action + ":" + p.resource.value)
      && (p.resourceScope.Some? ==>
            var head := p.action + ":" + p.resource.value + ":" + p.resourceScope.value;
            s == head || head + ":" <= s)
      && p.id == DeriveId(p.action, p.resource, p.resourceScope)
  {
    SplitSegmentsFree(s, ':');
    SplitJoinInverse(s, ':');
    var parts := Split(s, ':');
    if |parts| > 2 {
      var head := parts[0] + ":" + parts[1] + ":" + parts[2];
      assert Join(parts, ':') == parts[0] + ":" + Join(parts[1..], ':');
      assert Join(parts[1..], ':') == parts[1] + ":" + Join(parts[2..], ':');
      if |parts| == 3 {
        assert s == head;
      } else {
        var tail := Join(parts[3..], ':');
        assert Join(parts[2..], ':') == parts[2] + ":" + tail;
        assert s == head + ":" + tail;
        assert head + ":" <= s;
      }
    } else if |parts| == 2 {
      assert Join(parts, ':') == parts[0] + ":" + Join(parts[1..], ':');
    }
  }

  /** Resolves a string-or-record input to a record: strings are parsed, records pass through. */
  function Normalize(input: PermissionInput): Permission
  {
    match input
    case PermissionString(s) => ParsePermissionString(s)
    case PermissionRecord(q) => q
  }

  /** Normalizes a list entry by entry, keeping its order. */
  function NormalizeAll(inputs: seq<PermissionInput>): (ps: seq<Permission>)
    ensures |ps| == |inputs|
    decreases |inputs|
  {
    if |inputs| == 0 then [] else [Normalize(inputs[0])] + NormalizeAll(inputs[1..])
  }

  /** Entry `i` of the normalized list is the normalization of entry `i`. */
  lemma {:induction false} NormalizeAllAt(inputs: seq<PermissionInput>, i: nat)
    requires i < |inputs|
    ensures NormalizeAll(inputs)[i] == Normalize(inputs[i])
    decreases |inputs|
  {
    if i > 0 {
      NormalizeAllAt(inputs[1..], i - 1);
    }
  }

  /** Every entry of the normalized list is the normalization of its input entry. */
  lemma {:induction false} NormalizeAllPointwise(inputs: seq<PermissionInput>)
    ensures forall i :: 0 <= i < |inputs| ==> NormalizeAll(inputs)[i] == Normalize(inputs[i])
  {
    forall i | 0 <= i < |inputs|
      ensures NormalizeAll(inputs)[i] == Normalize(inputs[i])
    {
      NormalizeAllAt(inputs, i);
    }
  }

  /** Normalizing one more entry appends its normalization. */
  lemma {:induction false} NormalizeAllSnoc(inputs: seq<PermissionInput>, i: nat)
    requires i < |inputs|
    ensures NormalizeAll(inputs[..i + 1]) == NormalizeAll(inputs[..i]) + [Normalize(inputs[i])]
  {
    var xs, ys := NormalizeAll(inputs[..i + 1]), NormalizeAll(inputs[..i]) + [Normalize(inputs[i])];
    forall k | 0 <= k < |xs|
      ensures xs[k] == ys[k]
    {
      NormalizeAllAt(inputs[..i + 1], k);
      if k < i {
        NormalizeAllAt(inputs[..i], k);
      }
    }
  }

  /** `out` is `reg` with `added` registered after its entries, in order. */
  ghost predicate RegisteredAfter(reg: Registry, added: seq<Permission>, out: Registry) {
    && Valid(out)
    && (forall id :: id in reg.entries ==> GetPermission(out, id) == GetPermission(reg, id))
    && GetAllPermissions(out) == GetAllPermissions(reg) + added
  }

  /** One more successful registration extends the registered list by one. */
  lemma RegisteredAfterStep(reg: Registry, added: seq<Permission>, out: Registry, p: Permission)
    requires Valid(reg)
    requires RegisteredAfter(reg, added, out)
    requires RegisterPermission(out, p).Success?
    ensures RegisteredAfter(reg, added + [p], RegisterPermission(out, p).value)
  {
    RegisterAppends(out, p);
    assert GetAllPermissions(reg) + added + [p] == GetAllPermissions(reg) + (added + [p]);
  }

  /** An id neither in the catalog before nor among the registered permissions is
      still absent afterwards. */
  lemma UnregisteredIdAbsent(reg: Registry, added: seq<Permission>, out: Registry, id: string)
    requires Valid(reg)
    requires RegisteredAfter(reg, added, out)
    requires GetPermission(reg, id) == None
    requires forall i :: 0 <= i < |added| ==> added[i].id != id
    ensures GetPermission(out, id) == None
  {
    if id in out.entries {
      GetAllListsRegistered(out);
      GetAllListsRegistered(reg);
      var q := out.entries[id];
      assert q.id == id;
      assert q in GetAllPermissions(reg) + added;
    }
  }

  /** Registration stopped at entry `k`: every earlier entry was registered in
      order, and entry `k`'s id was already taken. */
  ghost predicate StoppedAt(reg: Registry, inputs: seq<PermissionInput>, k: nat, out: Registry, e: Error)
    requires k < |inputs|
  {
    && RegisteredAfter(reg, NormalizeAll(inputs[..k]), out)
    && Normalize(inputs[k]).id in out.entries
    && e == DuplicateId(Normalize(inputs[k]).id)
  }

  /** Registers each entry in list order: records as they are, strings as their parse.
      The first duplicate id stops the loop with its error; entries registered
      before it remain in the catalog. */
  method RegisterPermissions(reg: Registry, inputs: seq<PermissionInput>)
    returns (out: Registry, failure: Option<Error>)
    requires Valid(reg)
    ensures failure.None? ==> RegisteredAfter(reg, NormalizeAll(inputs), out)
    ensures failure.Some? ==> exists k: nat :: k < |inputs| && StoppedAt(reg, inputs, k, out, failure.value)
  {
    out := reg;
    var i := 0;
    while i < |inputs|
      invariant 0 <= i <= |inputs|
      invariant RegisteredAfter(reg, NormalizeAll(inputs[..i]), out)
    {
      var p := Normalize(inputs[i]);
      var r := RegisterPermission(out, p);
      if r.Failure? {
        failure := Some(r.error);
        assert StoppedAt(reg, inputs, i, out, r.error);
        return;
      }
      NormalizeAllSnoc(inputs, i);
      RegisteredAfterStep(reg, NormalizeAll(inputs[..i]), out, p);
      out := r.value;
      i := i + 1;
    }
    assert inputs[..i] == inputs;
    failure := None;
  }

  /** Three segments with a non-empty scope parse to exactly those fields, and
      the id is the input string itself. */
  lemma ParseThreeSegments(a: string, r: string, sc: string)
    requires ':' !in a && ':' !in r && ':' !in sc
    requires sc != ""
    ensures ParsePermissionString(a + ":" + r + ":" + sc)
         == Permission(a + ":" + r + ":" + sc, a, Some(r), Some(sc))
  {
    SplitAfterTwoSegments(a, r, sc, ':');
    SplitNoSeparator(sc, ':');
  }

  /** Two segments give an absent scope, and the id is the input string. */
  lemma ParseTwoSegments(a: string, r: string)
    requires ':' !in a && ':' !in r
    ensures ParsePermissionString(a + ":" + r) == Permission(a + ":" + r, a, Some(r), None)
  {
    SplitAfterSegment(a, r, ':');
    SplitNoSeparator(r, ':');
  }

  /** One segment leaves resource and scope absent; the id renders the missing
      resource as the text "undefined". */
  lemma ParseOneSegment(a: string)
    requires ':' !in a
    ensures ParsePermissionString(a) == Permission(a + ":undefined", a, None, None)
  {
    SplitNoSeparator(a, ':');
    assert DeriveId(a, None, None) == a + ":" + "undefined" + "";
    assert ":" + "undefined" == ":undefined";
    assert a + ":" + "undefined" + "" == a + (":" + "undefined");
  }

  /** An empty third segment is kept as the scope "" but left out of the id. */
  lemma ParseEmptyScope(a: string, r: string)
    requires ':' !in a && ':' !in r
    ensures ParsePermissionString(a + ":" + r + ":") == Permission(a + ":" + r, a, Some(r), Some(""))
  {
    assert a + ":" + r + ":" == a + ":" + r + ":" + "";
    SplitAfterTwoSegments(a, r, "", ':');
  }

  /** Everything after the third segment is ignored. */
  lemma ParseDropsExtraSegments(a: string, r: string, sc: string, rest: string)
    requires ':' !in a && ':' !in r && ':' !in sc
    ensures ParsePermissionString(a + ":" + r + ":" + sc + ":" + rest)
         == ParsePermissionString(a + ":" + r + ":" + sc)
  {
    var t := sc + ":" + rest;
    assert a + ":" + r + ":" + sc + ":" + rest == a + ":" + r + ":" + t;
    SplitAfterTwoSegments(a, r, t, ':');
    SplitAfterSegment(sc, rest, ':');
    SplitAfterTwoSegments(a, r, sc, ':');
    SplitNoSeparator(sc, ':');
  }

  /** The derived id reproduces the input exactly when the input has two segments,
      or three with a non-empty scope. */
  lemma ParseIdIsInputIff(s: string)
    ensures var parts := Split(s, ':');
      ParsePermissionString(s).id == s <==> |parts| == 2 || (|parts| == 3 && parts[2] != "")
  {
    SplitJoinInverse(s, ':');
    var parts := Split(s, ':');
    var id := ParsePermissionString(s).id;
    if |parts| == 1 {
      assert |id| == |s| + 10;
    } else {
      assert s == parts[0] + ":" + Join(parts[1..], ':');
      if |parts| > 2 {
        assert Join(parts[1..], ':') == parts[1] + ":" + Join(parts[2..], ':');
        if |parts| == 3 && parts[2] == "" {
          assert |id| + 1 == |s|;
        } else if |parts| > 3 {
          assert Join(parts[2..], ':') == parts[2] + ":" + Join(parts[3..], ':');
          assert |id| < |s|;
        }
      }
    }
  }

  /** Parsing an id the parser produced gives back the same permission, as long as
      the resource was present and the scope was not the empty string. */
  lemma ParseReparsesOwnId(s: string)
    requires ParsePermissionString(s).resource.Some?
    requires ParsePermissionString(s).resourceScope != Some("")
    ensures ParsePermissionString(ParsePermissionString(s).id) == ParsePermissionString(s)
  {
    var p := ParsePermissionString(s);
    ParseKeepsLeadingSegments(s);
    if p.resourceScope.Some? {
      ParseThreeSegments(p.action, p.resource.value, p.resourceScope.value);
    } else {
      ParseTwoSegments(p.action, p.resource.value);
    }
  }

  /** The two cases left out above really differ: an absent resource comes back as
      the resource "undefined", and an empty scope comes back absent. */
  lemma ReparseQuirks(a: string, r: string)
    requires ':' !in a && ':' !in r
    ensures ParsePermissionString(a).id == a + ":undefined"
    ensures ParsePermissionString(a + ":undefined").resource == Some("undefined")
    ensures ParsePermissionString(a + ":" + r + ":").resourceScope == Some("")
    ensures ParsePermissionString(a + ":" + r + ":").id == a + ":" + r
    ensures ParsePermissionString(a + ":" + r).resourceScope == None
  {
    ParseOneSegment(a);
    ParseTwoSegments(a, "undefined");
    ParseEmptyScope(a, r);
    ParseTwoSegments(a, r);
  }
}
