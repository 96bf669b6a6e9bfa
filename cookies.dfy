/** Loading and validating the session cookies kept in account.json
    (`DreaminaService.load_cookies`). The file arrives already parsed. */
module Cookies {
  import opened Wrappers
  import Text
  import Seqs

  /** A value as Python's json.load returns it. Integers and floats are both
      numbers here; only whether a number is zero matters to the loader. */
  datatype Json =
    | JNull
    | JBool(b: bool)
    | JNum(n: real)
    | JStr(s: string)
    | JArr(items: seq<Json>)
    | JObj(fields: map<string, Json>)

  /** account.json: missing, or present with its parsed contents. */
  datatype AccountFile = Missing | Present(data: Json)

  /** The exceptions the loader raises. */
  datatype LoadError =
    | FileNotFound    // FileNotFoundError: account.json does not exist
    | InvalidFormat   // ValueError: the top level is neither a list nor an object
    | NoCookies       // ValueError: the cookie collection is empty (falsy)
    | InvalidCookie   // ValueError: a cookie lacks `name` or `value`
    | NotIterable     // TypeError: `in` or `for` applied to a number, boolean or null

  /** Python truthiness of a JSON value. */
  predicate Truthy(v: Json) {
    match v
    case JNull => false
    case JBool(b) => b
    case JNum(n) => n != 0.0
    case JStr(s) => s != []
    case JArr(items) => items != []
    case JObj(fields) => fields != map[]
  }

  /** The cookie collection a top-level value names: a list is the collection,
      an object gives its `cookies` entry or an empty list, anything else is
      rejected. */
  function CookieCollection(data: Json): Result<Json, LoadError> {
    match data
    case JArr(_) => Ok(data)
    case JObj(fields) => Ok(if "cookies" in fields then fields["cookies"] else JArr([]))
    case _ => Err(InvalidFormat)
  }

  /** Python's `key in c` for a cookie `c`: a key of an object, an element of a
      list, a substring of a string; a TypeError for scalars. */
  function Member(key: string, c: Json): Result<bool, LoadError> {
    match c
    case JObj(fields) => Ok(key in fields)
    case JArr(items) => Ok(JStr(key) in items)
    case JStr(s) => Ok(Text.Contains(s, key))
    case _ => Err(NotIterable)
  }

  predicate HasField(c: Json, key: string) {
    Member(key, c) == Ok(true)
  }

  /** The exception the test `'name' not in c or 'value' not in c` raises, if any. */
  function CookieFault(c: Json): (r: Option<LoadError>)
    ensures r.None? <==> HasField(c, "name") && HasField(c, "value")
    ensures !c.JObj? && !c.JArr? && !c.JStr? ==> r == Some(NotIterable)
    ensures (c.JObj? || c.JArr? || c.JStr?) && r.Some? ==> r.value == InvalidCookie
  {
    match Member("name", c)
    case Err(e) => Some(e)
    case Ok(hasName) =>
      if !hasName || Member("value", c) != Ok(true) then Some(InvalidCookie) else None
  }

  predicate Faulty(c: Json) {
    CookieFault(c).Some?
  }

  /** `for cookie in s` over a string visits its one-character strings. */
  function Chars(s: string): seq<Json> {
    seq(|s|, i requires 0 <= i < |s| => JStr([s[i]]))
  }

  /** The exception of the first faulty cookie in a list scan, if any. */
  function FaultAmong(cookies: seq<Json>): Option<LoadError> {
    match Seqs.FirstWhere(cookies, Faulty)
    case None => None
    case Some(i) => CookieFault(cookies[i])
  }

  /** The exception the validation loop raises over a non-empty collection, if any:
      an object is scanned by its keys, a string by its characters, a scalar is
      not iterable. */
  function Validate(cookies: Json): Option<LoadError> {
    match cookies
    case JArr(items) => FaultAmong(items)
    case JStr(s) => FaultAmong(Chars(s))
    case JObj(fields) =>
      if forall k | k in fields :: !Faulty(JStr(k)) then None else Some(InvalidCookie)
    case _ => Some(NotIterable)
  }

  /** What `load_cookies` returns or raises for the given account file. */
  function Load(file: AccountFile): Result<Json, LoadError> {
    match file
    case Missing => Err(FileNotFound)
    case Present(data) =>
      match CookieCollection(data)
      case Err(e) => Err(e)
      case Ok(cookies) =>
        if !Truthy(cookies) then Err(NoCookies)
        else match Validate(cookies)
          case None => Ok(cookies)
          case Some(e) => Err(e)
  }

  /** The loader, step by step: dispatch on the top-level shape, reject an empty
      collection, then test every cookie in turn, stopping at the first bad one. */
  method LoadCookies(file: AccountFile) returns (r: Result<Json, LoadError>)
    ensures r == Load(file)
  {
    if file.Missing? {
      return Err(FileNotFound);
    }
    var data := file.data;
    var cookies: Json;
    if data.JArr? {
      cookies := data;
    } else if data.JObj? {
      cookies := if "cookies" in data.fields then data.fields["cookies"] else JArr([]);
    } else {
      return Err(InvalidFormat);
    }
    if !Truthy(cookies) {
      return Err(NoCookies);
    }
    if cookies.JObj? {
      var keys := cookies.fields.Keys;
      while keys != {}
        invariant keys <= cookies.fields.Keys
        invariant forall k :: k in cookies.fields.Keys - keys ==> !Faulty(JStr(k))
        decreases keys
      {
        var k :| k in keys;
        if !Text.Contains(k, "name") || !Text.Contains(k, "value") {
          return Err(InvalidCookie);
        }
        keys := keys - {k};
      }
      return Ok(cookies);
    }
    if !cookies.JArr? && !cookies.JStr? {
      return Err(NotIterable);
    }
    var items := if cookies.JArr? then cookies.items else Chars(cookies.s);
    var i := 0;
    while i < |items|
      invariant 0 <= i <= |items|
      invariant forall j :: 0 <= j < i ==> !Faulty(items[j])
    {
      var hasName := Member("name", items[i]);
      if hasName.Err? {
        return Err(hasName.error);
      }
      if !hasName.value || Member("value", items[i]) != Ok(true) {
        return Err(InvalidCookie);
      }
      i := i + 1;
    }
    return Ok(cookies);
  }

  /** A top-level list is the collection: it is accepted unchanged exactly when it
      is non-empty and every cookie has both `name` and `value`. */
  lemma ListTakenAsIs(items: seq<Json>)
    ensures Load(Present(JArr(items))).Ok? <==>
              items != [] && forall i :: 0 <= i < |items| ==> HasField(items[i], "name") && HasField(items[i], "value")
    ensures Load(Present(JArr(items))).Ok? ==> Load(Present(JArr(items))).value == JArr(items)
  {
  }

  /** A top-level object stands for its `cookies` entry; without one it holds no cookies. */
  lemma ObjectTakesCookiesEntry(fields: map<string, Json>)
    ensures "cookies" !in fields ==> Load(Present(JObj(fields))) == Err(NoCookies)
    ensures "cookies" in fields && Load(Present(JObj(fields))).Ok? ==>
              Load(Present(JObj(fields))).value == fields["cookies"]
  {
  }

  /** An object whose `cookies` entry is a list loads exactly as that list would
      at the top level. */
  lemma ObjectActsAsItsList(fields: map<string, Json>, items: seq<Json>)
    requires "cookies" in fields && fields["cookies"] == JArr(items)
    ensures Load(Present(JObj(fields))) == Load(Present(JArr(items)))
  {
  }

  /** Any other top-level shape is rejected as an invalid format; an empty collection
      as holding no cookies. */
  lemma ShapeAndEmptinessRejected(data: Json)
    ensures !data.JArr? && !data.JObj? ==> Load(Present(data)) == Err(InvalidFormat)
    ensures data == JArr([]) ==> Load(Present(data)) == Err(NoCookies)
    ensures data.JObj? && "cookies" in data.fields && !Truthy(data.fields["cookies"]) ==>
              Load(Present(data)) == Err(NoCookies)
  {
  }

  /** The first cookie lacking a field decides the error: ValueError when it is a
      container, TypeError when `in` cannot be applied to it. */
  lemma FirstBadCookieDecides(items: seq<Json>, i: nat)
    requires i < |items| && Faulty(items[i])
    requires forall j :: 0 <= j < i ==> !Faulty(items[j])
    ensures Load(Present(JArr(items))) == Err(CookieFault(items[i]).value)
    ensures items[i].JObj? || items[i].JArr? || items[i].JStr? ==> Load(Present(JArr(items))) == Err(InvalidCookie)
  {
    var f := Seqs.FirstWhere(items, Faulty);
    assert f.Some?;
    assert f.value == i;
  }

  /** A success returns the normalised collection itself: a non-empty container in
      which every visited cookie has both fields. */
  lemma SuccessIsValidatedCollection(file: AccountFile)
    requires Load(file).Ok?
    ensures file.Present? && CookieCollection(file.data) == Ok(Load(file).value)
    ensures Truthy(Load(file).value)
    ensures Load(file).value.JArr? || Load(file).value.JObj?
    ensures Load(file).value.JArr? ==>
              forall c :: c in Load(file).value.items ==> HasField(c, "name") && HasField(c, "value")
    ensures Load(file).value.JObj? ==>
              forall k :: k in Load(file).value.fields ==> Text.Contains(k, "name") && Text.Contains(k, "value")
  {
    var v := Load(file).value;
    if v.JStr? {
      StringCollectionRejected(v.s);
    }
    if v.JArr? {
      forall c | c in v.items ensures HasField(c, "name") && HasField(c, "value") {
        var i :| 0 <= i < |v.items| && v.items[i] == c;
        assert !Faulty(v.items[i]);
      }
    }
  }

  /** A string in place of the list is never accepted: its one-character pieces
      cannot hold `name`. */
  lemma StringCollectionRejected(s: string)
    requires s != []
    ensures Validate(JStr(s)) == Some(InvalidCookie)
  {
    var cs := Chars(s);
    assert !Text.Contains([s[0]], "name");
    assert Faulty(cs[0]);
    var f := Seqs.FirstWhere(cs, Faulty);
    assert f == Some(0);
  }

  /** The test on each cookie is Python's `in`, not a key lookup: a plain string
      that spells both field names passes it. */
  lemma StringCookiePasses(s: string)
    requires Text.Contains(s, "name") && Text.Contains(s, "value")
    ensures Load(Present(JArr([JStr(s)]))) == Ok(JArr([JStr(s)]))
  {
    assert HasField(JStr(s), "name");
    assert !Faulty(JStr(s));
    assert Seqs.FirstWhere([JStr(s)], Faulty).None?;
  }
}
