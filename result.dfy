/**
 * The outcomes of creating an account or a character (`marauroa.common.game.Result`).
 * Each outcome carries the `created` flag and the untranslated text given at
 * its declaration; exactly one outcome is a success.
 */
module GameResult {
  import Wrappers

  datatype Result =
    | OK_CREATED
    | FAILED_EMPTY_STRING
    | FAILED_INVALID_CHARACTER_USED
    | FAILED_STRING_SIZE
    | FAILED_PLAYER_EXISTS
    | FAILED_EXCEPTION
    | FAILED_CHARACTER_EXISTS
    | FAILED_INVALID_TEMPLATE
    | FAILED_STRING_TOO_SHORT
    | FAILED_STRING_TOO_LONG
    | FAILED_RESERVED_NAME
    | FAILED_PASSWORD_TOO_CLOSE_TO_USERNAME
    | FAILED_PASSWORD_TO_WEAK
    | FAILED_TOO_MANY
    | FAILED_OFFLINE
    | FAILED_CREATE_ON_MAIN_INSTEAD

  /** The `created` flag given at each constant's declaration, stored unchanged by the enum constructor. */
  function Created(r: Result): bool
  {
    match r
    case OK_CREATED => true
    case FAILED_EMPTY_STRING => false
    case FAILED_INVALID_CHARACTER_USED => false
    case FAILED_STRING_SIZE => false
    case FAILED_PLAYER_EXISTS => false
    case FAILED_EXCEPTION => false
    case FAILED_CHARACTER_EXISTS => false
    case FAILED_INVALID_TEMPLATE => false
    case FAILED_STRING_TOO_SHORT => false
    case FAILED_STRING_TOO_LONG => false
    case FAILED_RESERVED_NAME => false
    case FAILED_PASSWORD_TOO_CLOSE_TO_USERNAME => false
    case FAILED_PASSWORD_TO_WEAK => false
    case FAILED_TOO_MANY => false
    case FAILED_OFFLINE => false
    case FAILED_CREATE_ON_MAIN_INSTEAD => false
  }

  /** The untranslated text given at each constant's declaration, stored unchanged by the enum constructor. */
  function Text(r: Result): string
  {
    match r
    case OK_CREATED =>
      "Konto zostało utworzone."
    case FAILED_EMPTY_STRING =>
      "Konto nie zostało utworzone ponieważ brakuje jedno z ważnych parametrów."
    case FAILED_INVALID_CHARACTER_USED =>
      "Konto nie zostało utworzone ponieważ zostały użyte nieprawidłowe znaki (litera, znak, numer)"
    case FAILED_STRING_SIZE =>
      "Konto nie zostało utworzone ponieważ jakieś parametry są za krótkie lub za długie"
    case FAILED_PLAYER_EXISTS =>
      "Konto nie zostało utworzone ponieważ już istnieje."
    case FAILED_EXCEPTION =>
      "Konto nie zostało utworzone ponieważ wystąpił nieokreślony wyjątek."
    case FAILED_CHARACTER_EXISTS =>
      "Postać nie została utworzna ponieważ już istnieje."
    case FAILED_INVALID_TEMPLATE =>
      "Szablon wcześniej użyty do tworzenia postaci jest nieprawidłowy ponieważ nie zaliczył zasad (formuły) zawartej w RP."
    case FAILED_STRING_TOO_SHORT =>
      "Konto nie zostało utworzone ponieważ jeden z parametrów był zbyt krótki."
    case FAILED_STRING_TOO_LONG =>
      "Konto nie zostało utworzone ponieważ jeden z parametrów jest zbyt długi."
    case FAILED_RESERVED_NAME =>
      "Konto nie zostało utworzone ponieważ nazwa jest zarezerwowana (lub zawiera zarezerwowaną nazwę)."
    case FAILED_PASSWORD_TOO_CLOSE_TO_USERNAME =>
      "Konto nie zostało utworzone ponieważ hasło jest zbyt podobne do loginu lub nazwy wojownika."
    case FAILED_PASSWORD_TO_WEAK =>
      "Konto nie zostało utworzone ponieważ hasło jest zbyt słabe."
    case FAILED_TOO_MANY =>
      "Konto nie zostało utworzone ponieważ limit tworzenia konta dla Twojej sieci został osiągnięty.\nSpróbuj później."
    case FAILED_OFFLINE =>
      "Tworzenie nie powiodło się ponieważ serwer jest tymczasowo niedostępny. Spróbuj później."
    case FAILED_CREATE_ON_MAIN_INSTEAD =>
      "Konta nie mogą zostać utworzone na tym serwerze. Utwórz konto na głównym serwerze i poczekaj chwilę."
  }

  /** `failed()`: the negation of the stored flag, which holds for every outcome but `OK_CREATED`. */
  function Failed(r: Result): (f: bool)
    ensures f <==> r != OK_CREATED
  {
    !Created(r)
  }

  /** `getText()`: the stored text, translated afresh on each call. */
  function GetText(r: Result, translate: string -> string): string
  {
    translate(Text(r))
  }

  /**
   * The rendered text depends on nothing but what the translator does with
   * the stored text; a translator that leaves a text alone renders it as
   * stored.
   */
  lemma GetTextIsTranslation(r: Result, t1: string -> string, t2: string -> string)
    ensures t1(Text(r)) == t2(Text(r)) ==> GetText(r, t1) == GetText(r, t2)
    ensures GetText(r, s => s) == Text(r)
  {
  }

  const RESULT_COUNT: nat := 16

  /** `result.ordinal()`: the position of the outcome in declaration order. */
  function Ordinal(r: Result): (n: nat)
    ensures n < RESULT_COUNT
  {
    match r
    case OK_CREATED => 0
    case FAILED_EMPTY_STRING => 1
    case FAILED_INVALID_CHARACTER_USED => 2
    case FAILED_STRING_SIZE => 3
    case FAILED_PLAYER_EXISTS => 4
    case FAILED_EXCEPTION => 5
    case FAILED_CHARACTER_EXISTS => 6
    case FAILED_INVALID_TEMPLATE => 7
    case FAILED_STRING_TOO_SHORT => 8
    case FAILED_STRING_TOO_LONG => 9
    case FAILED_RESERVED_NAME => 10
    case FAILED_PASSWORD_TOO_CLOSE_TO_USERNAME => 11
    case FAILED_PASSWORD_TO_WEAK => 12
    case FAILED_TOO_MANY => 13
    case FAILED_OFFLINE => 14
    case FAILED_CREATE_ON_MAIN_INSTEAD => 15
  }

  /** `Result.values()`: the sixteen outcomes in declaration order, each at the index equal to its ordinal. */
  function Values(): (vs: seq<Result>)
    ensures |vs| == RESULT_COUNT
    ensures forall i :: 0 <= i < |vs| ==> Ordinal(vs[i]) == i
  {
    [OK_CREATED, FAILED_EMPTY_STRING, FAILED_INVALID_CHARACTER_USED, FAILED_STRING_SIZE,
     FAILED_PLAYER_EXISTS, FAILED_EXCEPTION, FAILED_CHARACTER_EXISTS, FAILED_INVALID_TEMPLATE,
     FAILED_STRING_TOO_SHORT, FAILED_STRING_TOO_LONG, FAILED_RESERVED_NAME,
     FAILED_PASSWORD_TOO_CLOSE_TO_USERNAME, FAILED_PASSWORD_TO_WEAK, FAILED_TOO_MANY,
     FAILED_OFFLINE, FAILED_CREATE_ON_MAIN_INSTEAD]
  }

  /** Two outcomes with the same ordinal are the same outcome. */
  lemma OrdinalInjective(a: Result, b: Result)
    ensures Ordinal(a) == Ordinal(b) ==> a == b
  {
  }

  /**
   * `Result.values()[i]` for any `int` index: the outcome at position `i`, or
   * nothing when `i` is not a position of the table (where Java throws
   * ArrayIndexOutOfBoundsException).
   */
  function FromOrdinal(i: int): (r: Wrappers.Option<Result>)
    ensures r.Some? <==> 0 <= i < RESULT_COUNT
    ensures r.Some? ==> Ordinal(r.value) == i
  {
    if 0 <= i < |Values()| then Wrappers.Some(Values()[i]) else Wrappers.None
  }

  /** Ordinal and position lookup are inverse to each other, in both directions. */
  lemma OrdinalRoundTrip(r: Result, i: int)
    ensures FromOrdinal(Ordinal(r)) == Wrappers.Some(r)
    ensures FromOrdinal(i).Some? ==> Ordinal(FromOrdinal(i).value) == i
  {
  }

  /** The enumeration is closed: every outcome is among `values()`. */
  lemma ValuesComplete(r: Result)
    ensures r in Values()
    ensures Values()[Ordinal(r)] == r
  {
  }

  /** How many outcomes in `rs` are successes. */
  function CountCreated(rs: seq<Result>): (n: nat)
    ensures n <= |rs|
  {
    if rs == [] then 0 else (if Failed(rs[0]) then 0 else 1) + CountCreated(rs[1..])
  }

  /** A sequence in which `OK_CREATED` occurs once holds exactly one success. */
  lemma {:induction false} CountCreatedOnce(rs: seq<Result>, k: nat)
    requires k < |rs| && rs[k] == OK_CREATED
    requires forall i :: 0 <= i < |rs| && i != k ==> rs[i] != OK_CREATED
    ensures CountCreated(rs) == 1
  {
    if k == 0 {
      CountCreatedNone(rs[1..]);
    } else {
      CountCreatedOnce(rs[1..], k - 1);
    }
  }

  /** A sequence without `OK_CREATED` holds no success. */
  lemma {:induction false} CountCreatedNone(rs: seq<Result>)
    requires forall i :: 0 <= i < |rs| ==> rs[i] != OK_CREATED
    ensures CountCreated(rs) == 0
  {
    if rs != [] {
      CountCreatedNone(rs[1..]);
    }
  }

  /** Of the sixteen outcomes exactly one, `OK_CREATED`, is a success; the other fifteen failed. */
  lemma ExactlyOneSuccess()
    ensures CountCreated(Values()) == 1
    ensures |Values()| - CountCreated(Values()) == 15
    ensures forall r :: !Failed(r) ==> r == OK_CREATED
  {
    CountCreatedOnce(Values(), 0);
  }
}
