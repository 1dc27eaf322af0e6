/**
 * `AuthService` (both copies, `org.example.auth.AuthService` and
 * `org.example.AuthService`, have the same code): two sets of tokens, the
 * authenticated ones and, among them, the authorized (admin) ones.
 */
module Auth {

  /** The two token sets, as a value. */
  datatype Tokens = Tokens(authenticated: set<string>, authorized: set<string>)

  /** What the class keeps true: every authorized token is also authenticated. */
  predicate Consistent(t: Tokens) {
    t.authorized <= t.authenticated
  }

  /** The sets after `registerToken(token, isAdmin)`. */
  function Registered(t: Tokens, token: string, isAdmin: bool): (r: Tokens)
    ensures token in r.authenticated
    ensures token in r.authorized <==> isAdmin || token in t.authorized
    ensures t.authenticated <= r.authenticated && t.authorized <= r.authorized
  {
    Tokens(t.authenticated + {token}, if isAdmin then t.authorized + {token} else t.authorized)
  }

  /** Registering keeps every authorized token authenticated. */
  lemma RegisteredConsistent(t: Tokens, token: string, isAdmin: bool)
    requires Consistent(t)
    ensures Consistent(Registered(t, token, isAdmin))
  {
  }

  /** Registering the same token twice is registering it once. */
  lemma RegisteredIdempotent(t: Tokens, token: string, isAdmin: bool)
    ensures Registered(Registered(t, token, isAdmin), token, isAdmin) == Registered(t, token, isAdmin)
  {
  }

  /** Any other token keeps its status. */
  lemma RegisteredOthers(t: Tokens, token: string, isAdmin: bool, other: string)
    requires other != token
    ensures other in Registered(t, token, isAdmin).authenticated <==> other in t.authenticated
    ensures other in Registered(t, token, isAdmin).authorized <==> other in t.authorized
  {
  }

  /** Registering a token as a non-admin never takes away an admin status it had. */
  lemma RegisteredNeverRevokes(t: Tokens, token: string)
    requires token in t.authorized
    ensures token in Registered(t, token, false).authorized
  {
  }

  /** The service: its two static sets, held here as the fields of one object. */
  class AuthService {
    var authenticated: set<string>
    var authorized: set<string>

    ghost predicate Valid()
      reads this
    {
      Consistent(State())
    }

    function State(): Tokens
      reads this
    {
      Tokens(authenticated, authorized)
    }

    /** Both sets start empty. */
    constructor ()
      ensures State() == Tokens({}, {}) && Valid()
    {
      authenticated := {};
      authorized := {};
    }

    /** `registerToken`: add the token to the authenticated set, and to the authorized set for an admin. */
    method RegisterToken(token: string, isAdmin: bool)
      requires Valid()
      modifies this
      ensures State() == Registered(old(State()), token, isAdmin)
      ensures Valid()
    {
      authenticated := authenticated + {token};
      if isAdmin {
        authorized := authorized + {token};
      }
      RegisteredConsistent(old(State()), token, isAdmin);
    }

    /** `isAuthenticated`. */
    function IsAuthenticated(token: string): (b: bool)
      reads this
      ensures b <==> token in State().authenticated
    {
      token in authenticated
    }

    /** `isAuthorized`. */
    function IsAuthorized(token: string): (b: bool)
      reads this
      ensures b <==> token in State().authorized
      ensures Valid() && b ==> IsAuthenticated(token)
    {
      token in authorized
    }

    /** `isAdmin`: the same test as `isAuthorized`. */
    function IsAdmin(token: string): (b: bool)
      reads this
      ensures b == IsAuthorized(token)
    {
      token in authorized
    }
  }
}
