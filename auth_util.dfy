/**
 * The access rules of the bluewind AuthUtil class: which annotation governs
 * a handler method (the method's own, else its declaring class's), how a
 * @RequiresPermissions or @RequiresRoles requirement is matched against the
 * codes a user holds, whether a handler is exempt from session checks
 * (@Ignore), and where the session token of a request is read from.
 *
 * Reflection is replaced by plain inputs: an annotation lookup on a method
 * or a class is an `Option` (None when the annotation is absent), and a
 * `Set<String>` that may be null is an `Option<set<string>>`.
 */
module AuthChecks {
  import opened Wrappers

  /** The Logical enum: how the codes of a requirement combine. */
  datatype Logical =
    | Or      // any one of the codes suffices
    | And     // every code is needed
    | Unknown // any other value of the field, which the checks treat as a denial

  /** The value() and logical() of a @RequiresPermissions or @RequiresRoles annotation. */
  datatype Requirement = Requirement(codes: seq<string>, logical: Logical)

  // ---------------------------------------------------------------------------
  // Specification
  // ---------------------------------------------------------------------------

  /**
   * method.getAnnotation(A), and when that is null,
   * method.getDeclaringClass().getAnnotation(A): the method's own annotation
   * wins and the class's is only a fallback.
   */
  function FindAnnotation<A>(onMethod: Option<A>, onClass: Option<A>): (r: Option<A>)
    ensures onMethod.Some? ==> r == onMethod
    ensures onMethod.None? ==> r == onClass
  {
    if onMethod.None? then onClass else onMethod
  }

  /** The codes a user holds; a null set is read as the empty set. */
  function Entitlements(held: Option<set<string>>): (r: set<string>)
    ensures held.Some? ==> r == held.value
    ensures held.None? ==> r == {}
  {
    if held.None? then {} else held.value
  }

  /** The codes a requirement names. */
  function Required(codes: seq<string>): set<string>
  {
    set i | 0 <= i < |codes| :: codes[i]
  }

  /**
   * Whether a requirement is met: under OR some required code is held,
   * under AND all of them are, and any other operator denies.
   */
  function Meets(req: Requirement, granted: set<string>): bool
  {
    match req.logical
    case Or => Required(req.codes) * granted != {}
    case And => Required(req.codes) <= granted
    case Unknown => false
  }

  /** The decision of checkPermission and checkRole: no governing annotation allows. */
  function Permits(annotation: Option<Requirement>, granted: set<string>): bool
  {
    annotation.None? || Meets(annotation.value, granted)
  }

  // ---------------------------------------------------------------------------
  // The checks as the Java code runs them
  // ---------------------------------------------------------------------------

  /** The OR loop: stop with true at the first required code that is held. */
  method HoldsAny(codes: seq<string>, granted: set<string>) returns (r: bool)
    ensures r <==> Required(codes) * granted != {}
  {
    for i := 0 to |codes|
      invariant forall j :: 0 <= j < i ==> codes[j] !in granted
    {
      if codes[i] in granted {
        assert codes[i] in Required(codes) * granted;
        return true;
      }
    }
    assert forall c :: c in Required(codes) ==> c !in granted;
    return false;
  }

  /** The AND loop: stop with false at the first required code that is not held. */
  method HoldsAll(codes: seq<string>, granted: set<string>) returns (r: bool)
    ensures r <==> Required(codes) <= granted
  {
    for i := 0 to |codes|
      invariant forall j :: 0 <= j < i ==> codes[j] in granted
    {
      if codes[i] !in granted {
        assert codes[i] in Required(codes);
        return false;
      }
    }
    return true;
  }

  /**
   * The shared body of checkPermission and checkRole: a null set becomes
   * the empty set, the method's annotation is looked up before the class's,
   * no annotation allows, and otherwise the operator picks the loop.
   */
  method CheckRequirement(onMethod: Option<Requirement>, onClass: Option<Requirement>, held: Option<set<string>>)
    returns (ok: bool)
    ensures ok == Permits(FindAnnotation(onMethod, onClass), Entitlements(held))
  {
    var granted := if held.None? then {} else held.value;
    var annotation := onMethod;
    if annotation.None? {
      annotation := onClass;
    }
    if annotation.None? {
      return true;
    }
    var req := annotation.value;
    if req.logical == Or {
      ok := HoldsAny(req.codes, granted);
    } else if req.logical == And {
      ok := HoldsAll(req.codes, granted);
    } else {
      ok := false;
    }
  }

  /** checkPermission(method, permissionSet), with the @RequiresPermissions lookups as inputs. */
  method CheckPermission(onMethod: Option<Requirement>, onClass: Option<Requirement>, permissionSet: Option<set<string>>)
    returns (ok: bool)
    ensures ok == Permits(FindAnnotation(onMethod, onClass), Entitlements(permissionSet))
  {
    ok := CheckRequirement(onMethod, onClass, permissionSet);
  }

  /** checkRole(method, roleSet), with the @RequiresRoles lookups as inputs. */
  method CheckRole(onMethod: Option<Requirement>, onClass: Option<Requirement>, roleSet: Option<set<string>>)
    returns (ok: bool)
    ensures ok == Permits(FindAnnotation(onMethod, onClass), Entitlements(roleSet))
  {
    ok := CheckRequirement(onMethod, onClass, roleSet);
  }

  /** The @Ignore annotation carries no values; only its presence matters. */
  datatype Ignore = Ignore

  /** checkIgnore(method): the method or its declaring class is marked @Ignore. */
  function CheckIgnore(onMethod: Option<Ignore>, onClass: Option<Ignore>): (ignored: bool)
    ensures ignored <==> onMethod.Some? || onClass.Some?
  {
    FindAnnotation(onMethod, onClass).Some?
  }

  // ---------------------------------------------------------------------------
  // Properties of the decision
  // ---------------------------------------------------------------------------

  /** Without an annotation on the method or its class every caller is allowed. */
  lemma NoRequirementAllows(held: Option<set<string>>)
    ensures Permits(FindAnnotation<Requirement>(None, None), Entitlements(held))
  {
  }

  /** An annotation on the method decides alone; the class's is never consulted. */
  lemma MethodRequirementWins(req: Requirement, onClass: Option<Requirement>, granted: set<string>)
    ensures Permits(FindAnnotation(Some(req), onClass), granted) == Meets(req, granted)
  {
  }

  /** Without an annotation on the method, the class's annotation decides. */
  lemma ClassRequirementFallback(onClass: Option<Requirement>, granted: set<string>)
    ensures Permits(FindAnnotation(None, onClass), granted) == Permits(onClass, granted)
  {
  }

  /** Under OR the check passes exactly when some listed code is held. */
  lemma OrMeansSome(codes: seq<string>, granted: set<string>)
    ensures Meets(Requirement(codes, Or), granted) <==> exists i :: 0 <= i < |codes| && codes[i] in granted
  {
    if Meets(Requirement(codes, Or), granted) {
      var c :| c in Required(codes) * granted;
      var i :| 0 <= i < |codes| && codes[i] == c;
    } else {
      forall i | 0 <= i < |codes|
        ensures codes[i] !in granted
      {
        assert codes[i] in Required(codes);
        assert codes[i] !in Required(codes) * granted;
      }
    }
  }

  /** Under AND the check passes exactly when every listed code is held. */
  lemma AndMeansAll(codes: seq<string>, granted: set<string>)
    ensures Meets(Requirement(codes, And), granted) <==> forall i :: 0 <= i < |codes| ==> codes[i] in granted
  {
    if forall i :: 0 <= i < |codes| ==> codes[i] in granted {
      forall c | c in Required(codes)
        ensures c in granted
      {
        var i :| 0 <= i < |codes| && codes[i] == c;
      }
    } else {
      var i :| 0 <= i < |codes| && codes[i] !in granted;
      assert codes[i] in Required(codes);
    }
  }

  /** An OR requirement with no codes denies everyone. */
  lemma EmptyOrDenies(granted: set<string>)
    ensures !Meets(Requirement([], Or), granted)
  {
  }

  /** An AND requirement with no codes allows everyone. */
  lemma EmptyAndAllows(granted: set<string>)
    ensures Meets(Requirement([], And), granted)
  {
  }

  /** An operator other than OR and AND denies, whatever is held. */
  lemma UnknownOperatorDenies(codes: seq<string>, granted: set<string>)
    ensures !Meets(Requirement(codes, Unknown), granted)
  {
  }

  /** A null entitlement set decides exactly like the empty set. */
  lemma NullSetIsEmpty(annotation: Option<Requirement>)
    ensures Permits(annotation, Entitlements(None)) == Permits(annotation, Entitlements(Some({})))
  {
  }

  /** Holding more codes never turns an allowed caller away. */
  lemma MoreEntitlementsNeverHurt(annotation: Option<Requirement>, fewer: set<string>, more: set<string>)
    requires fewer <= more
    ensures Permits(annotation, fewer) ==> Permits(annotation, more)
  {
    if annotation.Some? && annotation.value.logical == Or && Permits(annotation, fewer) {
      var c :| c in Required(annotation.value.codes) * fewer;
      assert c in Required(annotation.value.codes) * more;
    }
  }

  // ---------------------------------------------------------------------------
  // The session token of a request
  // ---------------------------------------------------------------------------

  /**
   * Character.isWhitespace: the Unicode space, line and paragraph
   * separators other than the no-break spaces U+00A0, U+2007 and U+202F,
   * and the controls U+0009..U+000D and U+001C..U+001F.
   */
  predicate IsJavaWhitespace(c: char)
  {
    var k := c as int;
    || 0x0009 <= k <= 0x000D  // tab, line feed, vertical tab, form feed, carriage return
    || 0x001C <= k <= 0x001F  // file, group, record and unit separators
    || k == 0x0020            // space
    || k == 0x1680            // ogham space mark
    || (0x2000 <= k <= 0x200A && k != 0x2007)  // en quad .. hair space, less figure space
    || k == 0x2028 || k == 0x2029              // line and paragraph separators
    || k == 0x205F            // medium mathematical space
    || k == 0x3000            // ideographic space
  }

  /** StringUtils.isBlank: null, empty, or whitespace only. */
  predicate IsBlank(s: Option<string>)
  {
    s.None? || forall i :: 0 <= i < |s.value| ==> IsJavaWhitespace(s.value[i])
  }

  /**
   * The parts of a request getToken reads: the named header and the named
   * cookie, each absent (null) or present.
   */
  datatype TokenSources = TokenSources(header: Option<string>, cookie: Option<string>)

  /**
   * getToken(request, tokenName): the header unless it is blank, else the
   * cookie. A null request makes getHeader throw, and the exception gives null.
   */
  function GetToken(request: Option<TokenSources>): (token: Option<string>)
    ensures request.None? ==> token.None?
    ensures request.Some? ==> (token == request.value.header && !IsBlank(token)) || token == request.value.cookie
  {
    if request.None? then None
    else if IsBlank(request.value.header) then request.value.cookie
    else request.value.header
  }

  /** A header that is not blank is the token; the cookie is not read. */
  lemma HeaderPreferred(header: string, cookie: Option<string>)
    requires !IsBlank(Some(header))
    ensures GetToken(Some(TokenSources(Some(header), cookie))) == Some(header)
  {
  }

  /** A missing or blank header falls back to the cookie, whatever it is. */
  lemma CookieFallback(header: Option<string>, cookie: Option<string>)
    requires IsBlank(header)
    ensures GetToken(Some(TokenSources(header, cookie))) == cookie
  {
  }
}
