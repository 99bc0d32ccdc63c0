/** Values shared by every part of the model: optional values, request outcomes,
    the requesting viewer, join-table rows and the text helpers the views need. */
module Common {

  datatype Option<T> = None | Some(value: T)

  /** Why a request is refused. `Invalid` names the payload fields a serializer rejected;
      `Unhandled` is an exception no view catches (the framework answers with a server error). */
  datatype Failure =
    | NotFound
    | AlreadyExists(message: string)
    | SelfFollow(message: string)
    | Invalid(fields: set<string>)
    | Unhandled

  datatype Result<T> = Ok(value: T) | Err(failure: Failure)

  /** The requesting user. An anonymous visitor has no primary key, so every
      row lookup keyed by it finds nothing. */
  datatype Viewer = Anonymous | Member(id: nat)

  /** A row of a join table: Favorite and ShoppingCart hold (user, recipe),
      Follow holds (user, author). */
  datatype Pair = Pair(user: nat, target: nat)

  /** Decimal rendering of a count, as an f-string renders an int. */
  function NatToString(n: nat): (s: string)
    ensures |s| >= 1
    ensures forall i :: 0 <= i < |s| ==> '0' <= s[i] <= '9'
  {
    if n < 10 then [DigitChar(n)] else NatToString(n / 10) + [DigitChar(n % 10)]
  }

  function DigitChar(d: nat): (c: char)
    requires d < 10
    ensures '0' <= c <= '9' && (c as int) - ('0' as int) == d
  {
    "0123456789"[d]
  }

  /** Reads a string of decimal digits back as a number: the partner of NatToString. */
  function DigitsValue(s: string): nat
    requires forall i :: 0 <= i < |s| ==> '0' <= s[i] <= '9'
  {
    if s == [] then 0
    else 10 * DigitsValue(s[..|s| - 1]) + ((s[|s| - 1] as int) - ('0' as int))
  }

  lemma {:induction false} NatToStringRoundTrip(n: nat)
    ensures DigitsValue(NatToString(n)) == n
  {
    var s := NatToString(n);
    if n < 10 {
      assert s[..|s| - 1] == [];
    } else {
      assert s[..|s| - 1] == NatToString(n / 10) && s[|s| - 1] == DigitChar(n % 10);
      NatToStringRoundTrip(n / 10);
      assert n == 10 * (n / 10) + n % 10;
    }
  }

  /** Python's `sep.join(parts)`. */
  function Join(parts: seq<string>, sep: string): string
  {
    if parts == [] then ""
    else if |parts| == 1 then parts[0]
    else parts[0] + sep + Join(parts[1..], sep)
  }

  /** Lexicographic order of strings by code point: how text columns are ordered. */
  predicate StrLe(a: string, b: string)
  {
    if a == [] then true
    else if b == [] then false
    else if a[0] != b[0] then a[0] < b[0]
    else StrLe(a[1..], b[1..])
  }

  lemma {:induction false} StrLeTotal(a: string, b: string)
    ensures StrLe(a, b) || StrLe(b, a)
  {
    if a != [] && b != [] && a[0] == b[0] {
      StrLeTotal(a[1..], b[1..]);
    }
  }

  lemma {:induction false} StrLeTransitive(a: string, b: string, c: string)
    requires StrLe(a, b) && StrLe(b, c)
    ensures StrLe(a, c)
  {
    if a != [] && b != [] && c != [] && a[0] == b[0] && b[0] == c[0] {
      StrLeTransitive(a[1..], b[1..], c[1..]);
    }
  }
}
