/**
 * The web filter that turns `Authorization` headers into an authentication:
 * the first header whose token verifies wins; when headers are present but
 * none verifies the response status is set to 401 and the request goes on
 * unauthenticated. Token signature and expiry checking is the `verify`
 * oracle, which also stands for decoding the JSON subject.
 */
module AuthorizationFilter {
  import opened Results
  import opened Entities

  const BEARER: string := "Bearer"
  const UNAUTHORIZED: int := 401

  /** An authenticated caller: the user decoded from its token and the authorities granted to it. */
  datatype Principal = Principal(user: User, authorities: seq<string>)

  /** What the filter passes down the chain. */
  datatype FilterOutcome = FilterOutcome(authentication: Option<Principal>, status: Option<int>)

  /** "Bearer" occurs in `s` starting at index `i`. */
  predicate BearerAt(s: string, i: int) {
    0 <= i && i + |BEARER| <= |s| && s[i..i + |BEARER|] == BEARER
  }

  /** "Bearer" occurs nowhere in `s`. */
  predicate NoBearer(s: string) {
    forall i :: 0 <= i <= |s| ==> !BearerAt(s, i)
  }

  /**
   * The header with every occurrence of "Bearer" removed, scanning left to
   * right without overlap, as a replace-all by the empty string does.
   */
  function StripBearer(s: string): (r: string)
    ensures |r| <= |s|
    decreases |s|
  {
    if |s| >= |BEARER| && s[..|BEARER|] == BEARER then StripBearer(s[|BEARER|..])
    else if s == [] then []
    else [s[0]] + StripBearer(s[1..])
  }

  /** One step of the strip at position `i`: drop an occurrence there, or keep the character. */
  lemma StripStep(s: string, i: nat)
    requires i < |s|
    ensures BearerAt(s, i) ==> StripBearer(s[i..]) == StripBearer(s[i + |BEARER|..])
    ensures !BearerAt(s, i) ==> StripBearer(s[i..]) == [s[i]] + StripBearer(s[i + 1..])
  {
    var t := s[i..];
    if i + |BEARER| <= |s| {
      assert t[..|BEARER|] == s[i..i + |BEARER|];
      assert t[|BEARER|..] == s[i + |BEARER|..];
    }
    assert t[1..] == s[i + 1..];
  }

  /**
   * The replace-all loop: copies the header character by character and
   * skips each occurrence of "Bearer" it meets.
   */
  method ReplaceBearer(s: string) returns (r: string)
    ensures r == StripBearer(s)
  {
    r := [];
    var i := 0;
    while i < |s|
      invariant 0 <= i <= |s|
      invariant r + StripBearer(s[i..]) == StripBearer(s)
      decreases |s| - i
    {
      StripStep(s, i);
      if BearerAt(s, i) {
        i := i + |BEARER|;
      } else {
        assert (r + [s[i]]) + StripBearer(s[i + 1..]) == r + ([s[i]] + StripBearer(s[i + 1..]));
        r := r + [s[i]];
        i := i + 1;
      }
    }
    assert s[i..] == [];
  }

  /** A string with no occurrence of "Bearer" passes through unchanged. */
  lemma {:induction false} StripNoBearer(s: string)
    requires NoBearer(s)
    ensures StripBearer(s) == s
    decreases |s|
  {
    if s != [] {
      assert !BearerAt(s, 0);
      forall i ensures !BearerAt(s[1..], i) {
        if BearerAt(s[1..], i) {
          assert s[1..][i..i + |BEARER|] == s[i + 1..i + 1 + |BEARER|];
          assert BearerAt(s, i + 1);
        }
      }
      StripNoBearer(s[1..]);
      assert s == [s[0]] + s[1..];
    }
  }

  /** A string holding "Bearer" somewhere loses at least that word's length. */
  lemma {:induction false} StripShortens(s: string)
    requires !NoBearer(s)
    ensures |StripBearer(s)| <= |s| - |BEARER|
    decreases |s|
  {
    var i :| 0 <= i <= |s| && BearerAt(s, i);
    if !(|s| >= |BEARER| && s[..|BEARER|] == BEARER) {
      assert i != 0;
      assert s[1..][i - 1..i - 1 + |BEARER|] == s[i..i + |BEARER|];
      assert BearerAt(s[1..], i - 1);
      StripShortens(s[1..]);
    }
  }

  /** A character other than 'B' cannot start "Bearer", so it passes through. */
  lemma StripCons(c: char, t: string)
    requires c != 'B'
    ensures StripBearer([c] + t) == [c] + StripBearer(t)
  {
    var s := [c] + t;
    assert s[0] == c;
    assert s[1..] == t;
    if |s| >= |BEARER| {
      assert s[..|BEARER|][0] != BEARER[0];
    }
  }

  /** A leading "Bearer" is dropped and the rest is stripped on its own. */
  lemma StripPrefix(t: string)
    ensures StripBearer(BEARER + t) == StripBearer(t)
  {
    assert (BEARER + t)[..|BEARER|] == BEARER;
    assert (BEARER + t)[|BEARER|..] == t;
  }

  /** A space is never part of "Bearer", so it passes through and the rest is stripped on its own. */
  lemma StripSpace(t: string)
    ensures StripBearer(" " + t) == " " + StripBearer(t)
  {
    StripCons(' ', t);
  }

  /** The header `Bearer <token>` reaches the parser as ` <token>`, the token itself stripped too. */
  lemma StripBearerHeader(t: string)
    ensures StripBearer("Bearer " + t) == " " + StripBearer(t)
  {
    assert "Bearer " + t == BEARER + (" " + t);
    StripPrefix(" " + t);
    StripSpace(t);
  }

  /** A token free of "Bearer" reaches the parser intact, behind one space. */
  lemma BearerHeaderRoundTrip(t: string)
    requires NoBearer(t)
    ensures StripBearer("Bearer " + t) == " " + t
  {
    StripBearerHeader(t);
    StripNoBearer(t);
  }

  /**
   * Occurrences inside the token are removed as well, not only the prefix:
   * `Bearer cBearerd` reaches the parser as ` cd`.
   */
  lemma StripInsideToken(c: char, d: char)
    requires c != 'B' && d != 'B'
    ensures StripBearer(BEARER + [' ', c] + BEARER + [d]) == [' ', c, d]
  {
    assert BEARER + [' ', c] + BEARER + [d] == BEARER + ([' '] + ([c] + (BEARER + ([d] + []))));
    StripPrefix([' '] + ([c] + (BEARER + ([d] + []))));
    StripCons(' ', [c] + (BEARER + ([d] + [])));
    StripCons(c, BEARER + ([d] + []));
    StripPrefix([d] + []);
    StripCons(d, []);
  }

  /**
   * The authentication one header yields: the decoded user as principal and
   * its role names as authorities; nothing when the token does not verify,
   * or when a role name is blank and its authority cannot be built (the
   * exception is caught).
   */
  function GetAuthentication(header: string, verify: string -> Option<Claims>): (a: Option<Principal>)
    ensures a.Some? <==> verify(StripBearer(header)).Some? && RolesHaveText(verify(StripBearer(header)).value.subject.roles)
    ensures a.Some? ==> a.value.user == verify(StripBearer(header)).value.subject
    ensures a.Some? ==> |a.value.authorities| == |a.value.user.roles|
    ensures a.Some? ==> forall i :: 0 <= i < |a.value.user.roles| ==> a.value.authorities[i] == a.value.user.roles[i].value
  {
    match verify(StripBearer(header))
    case None => None
    case Some(claims) =>
      if RolesHaveText(claims.subject.roles) then Some(Principal(claims.subject, RoleValues(claims.subject.roles)))
      else None
  }

  /** The authentication of the first header that yields one. */
  function FirstAuthentication(headers: seq<string>, verify: string -> Option<Claims>): (a: Option<Principal>)
    ensures a.Some? <==> exists i :: 0 <= i < |headers| && GetAuthentication(headers[i], verify).Some?
    ensures a.Some? ==> exists i :: 0 <= i < |headers| && a == GetAuthentication(headers[i], verify)
                          && forall j :: 0 <= j < i ==> GetAuthentication(headers[j], verify).None?
    decreases |headers|
  {
    if headers == [] then None
    else
      match GetAuthentication(headers[0], verify)
      case Some(p) => Some(p)
      case None =>
        var rest := FirstAuthentication(headers[1..], verify);
        assert forall i :: 0 <= i < |headers| - 1 ==> headers[1..][i] == headers[i + 1];
        rest
  }

  /**
   * The filter's decision. No header: unauthenticated, status untouched.
   * Headers: the first verifying one authenticates; if none does, the status
   * becomes 401 and the request continues unauthenticated.
   */
  function Filter(headers: Option<seq<string>>, verify: string -> Option<Claims>): (r: FilterOutcome)
    ensures headers.None? || headers.value == [] ==> r == FilterOutcome(None, None)
    ensures headers.Some? && headers.value != [] ==> r.authentication == FirstAuthentication(headers.value, verify)
    ensures r.status.Some? <==> headers.Some? && headers.value != []
                                && forall i :: 0 <= i < |headers.value| ==> GetAuthentication(headers.value[i], verify).None?
    ensures r.status.Some? ==> r.status.value == UNAUTHORIZED && r.authentication.None?
  {
    if headers.None? || headers.value == [] then FilterOutcome(None, None)
    else
      var a := FirstAuthentication(headers.value, verify);
      FilterOutcome(a, if a.None? then Some(UNAUTHORIZED) else None)
  }
}
