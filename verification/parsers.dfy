/** The header and path parsers of the request gate, and the client's printers that feed them. */
module Parsers {
  import opened Text

  datatype Parsed = Rejected | Accepted(text: string)

  /** extractBearerToken: split at the first space, compare the scheme, trim the rest. */
  function ExtractBearer(header: string): Parsed {
    var i := IndexOf(header, ' ');
    if i == |header| then Rejected
    else if !EqualFold(header[..i], "Bearer") || Trim(header[i + 1..]) == "" then Rejected
    else Accepted(Trim(header[i + 1..]))
  }

  /** The header is a scheme equal to "bearer" in any case, one space, and a rest that is not blank. */
  ghost predicate IsBearer(header: string, scheme: string, rest: string) {
    header == scheme + " " + rest && EqualFold(scheme, "bearer") && Trim(rest) != ""
  }

  lemma FirstSpace(scheme: string, rest: string)
    requires ' ' !in scheme
    ensures IndexOf(scheme + " " + rest, ' ') == |scheme|
  {
    var h := scheme + " " + rest;
    assert h[|scheme|] == ' ';
    assert forall k :: 0 <= k < |scheme| ==> h[k] == scheme[k];
  }

  lemma BearerHasNoSpace(scheme: string)
    requires EqualFold(scheme, "bearer")
    ensures ' ' !in scheme
  {
  }

  /** The parser accepts exactly the bearer headers, and answers with the trimmed rest. */
  lemma BearerExact(header: string, token: string)
    ensures ExtractBearer(header) == Accepted(token) <==>
      exists scheme, rest :: IsBearer(header, scheme, rest) && token == Trim(rest)
  {
    assert Lower("Bearer") == Lower("bearer");
    if ExtractBearer(header) == Accepted(token) {
      var i := IndexOf(header, ' ');
      assert header == header[..i] + " " + header[i + 1..];
      assert IsBearer(header, header[..i], header[i + 1..]);
    }
    forall scheme, rest | IsBearer(header, scheme, rest) && token == Trim(rest)
      ensures ExtractBearer(header) == Accepted(token)
    {
      BearerHasNoSpace(scheme);
      FirstSpace(scheme, rest);
      assert header[..|scheme|] == scheme && header[|scheme| + 1..] == rest;
    }
  }

  predicate HexDigit(c: char) {
    '0' <= c <= '9' || 'a' <= c <= 'f'
  }

  /** What generateToken produces, for any number of random bytes above zero. */
  predicate HexToken(s: string) {
    s != "" && forall c :: c in s ==> HexDigit(c)
  }

  /** The header the client prints for a token. */
  function PrintBearer(token: string): string {
    "Bearer " + token
  }

  /** Printing and parsing give back the same token exactly for the trimmed, non-empty ones. */
  lemma BearerRoundTrip(token: string)
    ensures ExtractBearer(PrintBearer(token)) == Accepted(token) <==> token != "" && Trimmed(token)
    ensures HexToken(token) ==> ExtractBearer(PrintBearer(token)) == Accepted(token)
  {
    var h := PrintBearer(token);
    assert h == "Bearer" + " " + token;
    FirstSpace("Bearer", token);
    assert h[..6] == "Bearer" && h[7..] == token;
    TrimIsTrimmed(token);
    if HexToken(token) {
      assert token[0] in token && token[|token| - 1] in token;
    }
  }

  const SESSIONS_PATH := "/v1/system/sessions/"
  const MIGRATIONS_PATH := "/v1/system/migrations/"
  const APPLY := "/apply"

  /** The session id a DELETE request names in its path. */
  function ParseSessionId(path: string): Parsed {
    var id := Trim(TrimPrefix(path, SESSIONS_PATH));
    if id == "" || '/' in id then Rejected else Accepted(id)
  }

  /** The path the client prints for a session. */
  function PrintSessionPath(id: string): string {
    "/v1/system/sessions/" + id
  }

  /** The path round trip holds for exactly the ids that are trimmed, not empty and free of slashes;
      issued ids are. */
  lemma SessionPathRoundTrip(id: string)
    ensures ParseSessionId(PrintSessionPath(id)) == Accepted(id) <==> id != "" && Trimmed(id) && '/' !in id
    ensures HexToken(id) ==> ParseSessionId(PrintSessionPath(id)) == Accepted(id)
  {
    assert TrimPrefix(PrintSessionPath(id), SESSIONS_PATH) == id;
    TrimIsTrimmed(id);
    if HexToken(id) {
      assert id[0] in id && id[|id| - 1] in id;
    }
  }

  const PROFILES_PATH := "/v1/sql-profiles/"

  /** The profile id a request names in its path; anything else has no such resource. */
  function ParseProfileId(path: string): Parsed {
    var id := TrimPrefix(path, PROFILES_PATH);
    if id == "" || '/' in id then Rejected else Accepted(id)
  }

  /** The path round trip holds for exactly the non-empty ids without a slash; no white space is taken off. */
  lemma ProfilePathRoundTrip(id: string)
    ensures ParseProfileId("/v1/sql-profiles/" + id) == Accepted(id) <==> id != "" && '/' !in id
  {
    assert TrimPrefix("/v1/sql-profiles/" + id, PROFILES_PATH) == id;
  }

  datatype MigrationPath = NoRoute | BadName | Apply(name: string)

  /** The migration a POST request names in its path. */
  function ParseMigrationPath(path: string): MigrationPath {
    var trimmed := TrimPrefix(path, MIGRATIONS_PATH);
    if !HasSuffix(trimmed, APPLY) then NoRoute
    else
      var name := TrimSuffix(TrimSuffix(trimmed, APPLY), "/");
      if name == "" || '/' in name then BadName else Apply(name)
  }

  /** The path the client prints for a migration. */
  function PrintMigrationPath(name: string): string {
    "/v1/system/migrations/" + name + "/apply"
  }

  /** The path round trip holds for exactly the non-empty names without a slash. */
  lemma MigrationPathRoundTrip(name: string)
    ensures ParseMigrationPath(PrintMigrationPath(name)) == Apply(name) <==> name != "" && '/' !in name
  {
    var path := PrintMigrationPath(name);
    assert path == MIGRATIONS_PATH + (name + APPLY);
    assert TrimPrefix(path, MIGRATIONS_PATH) == name + APPLY;
    assert (name + APPLY)[|name|..] == APPLY;
    assert TrimSuffix(name + APPLY, APPLY) == name;
    if name != "" && '/' !in name {
      assert name[|name| - 1..][0] == name[|name| - 1];
      assert !HasSuffix(name, "/");
    }
  }

  /** Every name that reaches the migration service is a single path element. */
  lemma ParsedNamesAreSafe(path: string)
    ensures ParseMigrationPath(path).Apply? ==>
      ParseMigrationPath(path).name != "" && '/' !in ParseMigrationPath(path).name
    ensures ParseMigrationPath(path).Apply? <==>
      exists name, slash ::
        && name != "" && '/' !in name && (slash == "" || slash == "/")
        && TrimPrefix(path, MIGRATIONS_PATH) == name + slash + APPLY
  {
    var t := TrimPrefix(path, MIGRATIONS_PATH);
    if ParseMigrationPath(path).Apply? {
      var name := ParseMigrationPath(path).name;
      var body := TrimSuffix(t, APPLY);
      assert t == body + APPLY;
      if HasSuffix(body, "/") {
        assert t == name + "/" + APPLY;
      } else {
        assert t == name + "" + APPLY;
      }
    }
    forall name, slash | name != "" && '/' !in name && (slash == "" || slash == "/") && t == name + slash + APPLY
      ensures ParseMigrationPath(path).Apply?
    {
      var body := name + slash;
      assert t == body + APPLY;
      assert t[|body|..] == APPLY;
      assert TrimSuffix(t, APPLY) == body;
      if slash == "" {
        assert body == name;
        assert name[|name| - 1..][0] == name[|name| - 1];
        assert TrimSuffix(body, "/") == name;
      } else {
        assert body[|name|..] == "/";
        assert TrimSuffix(body, "/") == name;
      }
    }
  }

  /** strings.EqualFold over trimmed roles. */
  predicate HasRole(roles: seq<string>, role: string) {
    exists i :: 0 <= i < |roles| && EqualFold(Trim(roles[i]), role)
  }

  /** hasRole as the loop runs it. */
  method FindRole(roles: seq<string>, role: string) returns (found: bool)
    ensures found <==> HasRole(roles, role)
    ensures found <==> exists i :: 0 <= i < |roles| && EqualFold(Trim(roles[i]), role)
  {
    for i := 0 to |roles|
      invariant forall k :: 0 <= k < i ==> !EqualFold(Trim(roles[k]), role)
    {
      if EqualFold(Trim(roles[i]), role) {
        return true;
      }
    }
    return false;
  }
}
