/**
 * The reasons a server gives for rejecting a login (`MessageS2CLoginNACK.Reasons`)
 * and the table of their untranslated texts. A reason crosses the wire as its
 * ordinal, its position in declaration order, so that position is part of the
 * protocol: variants may only ever be added at the end.
 */
module LoginReasons {
  import opened Wrappers
  import opened JavaBytes

  datatype Reasons =
    | USERNAME_WRONG
    | TOO_MANY_TRIES
    | USERNAME_BANNED
    | SERVER_IS_FULL
    | GAME_MISMATCH
    | PROTOCOL_MISMATCH
    | INVALID_NONCE
    | USERNAME_INACTIVE
    | TOO_MANY_TRIES_USERNAME
    | TOO_MANY_TRIES_IP
    | SEED_WRONG
    | ACCOUNT_MERGED

  const REASON_COUNT: nat := 12

  /** `reason.ordinal()`: the position of the variant in declaration order. */
  function Ordinal(r: Reasons): (n: nat)
    ensures n < REASON_COUNT
  {
    match r
    case USERNAME_WRONG => 0
    case TOO_MANY_TRIES => 1
    case USERNAME_BANNED => 2
    case SERVER_IS_FULL => 3
    case GAME_MISMATCH => 4
    case PROTOCOL_MISMATCH => 5
    case INVALID_NONCE => 6
    case USERNAME_INACTIVE => 7
    case TOO_MANY_TRIES_USERNAME => 8
    case TOO_MANY_TRIES_IP => 9
    case SEED_WRONG => 10
    case ACCOUNT_MERGED => 11
  }

  /** `Reasons.values()`: every variant, each at the index equal to its ordinal. */
  function Values(): (vs: seq<Reasons>)
    ensures |vs| == REASON_COUNT
    ensures forall i :: 0 <= i < |vs| ==> Ordinal(vs[i]) == i
  {
    [USERNAME_WRONG, TOO_MANY_TRIES, USERNAME_BANNED, SERVER_IS_FULL, GAME_MISMATCH,
     PROTOCOL_MISMATCH, INVALID_NONCE, USERNAME_INACTIVE, TOO_MANY_TRIES_USERNAME,
     TOO_MANY_TRIES_IP, SEED_WRONG, ACCOUNT_MERGED]
  }

  /** Two variants with the same ordinal are the same variant. */
  lemma OrdinalInjective(a: Reasons, b: Reasons)
    ensures Ordinal(a) == Ordinal(b) ==> a == b
  {
  }

  /** `values()` lists every variant, and indexing it by a variant's ordinal gives that variant back. */
  lemma ValuesAtOrdinal(r: Reasons)
    ensures r in Values()
    ensures Values()[Ordinal(r)] == r
  {
  }

  /**
   * `Reasons.values()[i]` for any `int` index: the variant at position `i`, or
   * nothing when `i` is not a position of the table (where Java throws
   * ArrayIndexOutOfBoundsException).
   */
  function FromOrdinal(i: int): (r: Option<Reasons>)
    ensures r.Some? <==> 0 <= i < REASON_COUNT
    ensures r.Some? ==> Ordinal(r.value) == i
  {
    if 0 <= i < |Values()| then Some(Values()[i]) else None
  }

  /** Ordinal and position lookup are inverse to each other, in both directions. */
  lemma OrdinalRoundTrip(r: Reasons, i: int)
    ensures FromOrdinal(Ordinal(r)) == Some(r)
    ensures FromOrdinal(i).Some? ==> Ordinal(FromOrdinal(i).value) == i
  {
  }

  /** The wire values are pinned, in declaration order. */
  lemma OrdinalsPinned()
    ensures Ordinal(USERNAME_WRONG) == 0 && Ordinal(TOO_MANY_TRIES) == 1
    ensures Ordinal(USERNAME_BANNED) == 2 && Ordinal(SERVER_IS_FULL) == 3
    ensures Ordinal(GAME_MISMATCH) == 4 && Ordinal(PROTOCOL_MISMATCH) == 5
    ensures Ordinal(INVALID_NONCE) == 6 && Ordinal(USERNAME_INACTIVE) == 7
    ensures Ordinal(TOO_MANY_TRIES_USERNAME) == 8 && Ordinal(TOO_MANY_TRIES_IP) == 9
    ensures Ordinal(SEED_WRONG) == 10 && Ordinal(ACCOUNT_MERGED) == 11
  {
  }

  /** Every ordinal fits in a Java byte, so `(byte) reason.ordinal()` loses nothing. */
  lemma OrdinalCastLossless(r: Reasons)
    ensures ByteCast(Ordinal(r)) as int == Ordinal(r)
  {
  }

  /** `reason.name()`: the symbolic name. */
  function Name(r: Reasons): string
  {
    match r
    case USERNAME_WRONG => "USERNAME_WRONG"
    case TOO_MANY_TRIES => "TOO_MANY_TRIES"
    case USERNAME_BANNED => "USERNAME_BANNED"
    case SERVER_IS_FULL => "SERVER_IS_FULL"
    case GAME_MISMATCH => "GAME_MISMATCH"
    case PROTOCOL_MISMATCH => "PROTOCOL_MISMATCH"
    case INVALID_NONCE => "INVALID_NONCE"
    case USERNAME_INACTIVE => "USERNAME_INACTIVE"
    case TOO_MANY_TRIES_USERNAME => "TOO_MANY_TRIES_USERNAME"
    case TOO_MANY_TRIES_IP => "TOO_MANY_TRIES_IP"
    case SEED_WRONG => "SEED_WRONG"
    case ACCOUNT_MERGED => "ACCOUNT_MERGED"
  }

  /** No name holds a double quote, so a name stands in JSON exactly as written and ends at the next quote. */
  lemma NameHasNoQuote(r: Reasons)
    ensures '"' !in Name(r)
  {
  }

  /** Different variants have different names, so a name identifies its variant. */
  lemma NameInjective(a: Reasons, b: Reasons)
    ensures Name(a) == Name(b) ==> a == b
  {
  }

  /** The untranslated rejection texts (`text`), one per reason, indexed by ordinal. */
  const TEXT: seq<string> := [
    "Niepoprawna nazwa użytkownika/hasła. ",
    "Wystąpiło zbyt wiele niepoprawnych prób zalogowania do twojego konta lub z twojej sieci. "
      + "Odczekaj kilka minut lub skontaktuj się ze wsparciem.",
    "Konto jest zablokowane.",
    "Serwer jest pełny.",
    "Serwer działa na niekompatybilnej wersji gry. Zaktualizuj.",
    "Nieprawidłowa wersja protokołu.",
    "Hash, który wysyłasz jest nie zgodny z tym co wysłałeś wcześniej.",
    "Twoje konto jest nieaktywne. Musisz potwierdzić utworzenie konta klikając na odnośnik "
      + "przesłany w e-mailu. Jeśli go nie otrzymałeś to zaloguj się na stronie i naciśnij na przycisk "
      + "ponownego wysłania lub skontaktuj się ze wsparciem. Masz 24 godziny na potwierdzenie utworzenia "
      + "konta ponieważ po tym czasie konto zostanie automatycznie usunięte.",
    "Wystąpiło zbyt wiele nieudanych prób zalogowania do twojego konta. "
      + "Odczekaj kilka minut lub skontaktuj się ze wsparciem.",
    "Wystąpiło zbyt wiele nieudanych prób zalogowania z twojej sieci. "
      + "Odczekaj kilka minut lub skontaktuj się ze wsparciem.",
    "Nie powiodło się wstępne uwierzytelnienie. Spróbuj ponownie.",
    "To konto zostało połączone z innym kontem. Użyj loginu innego konta, "
      + "aby zalogować lub skontaktuj się ze wsparciem."]

  /**
   * The text table has exactly one entry per variant, so `text[reason.ordinal()]`
   * is in bounds for every reason.
   */
  lemma TextTableAligned(r: Reasons)
    ensures |TEXT| == |Values()|
    ensures 0 <= Ordinal(r) < |TEXT|
  {
  }

  /** `text[reason.ordinal()]`: the untranslated text of a reason. */
  function Text(r: Reasons): string
  {
    TEXT[Ordinal(r)]
  }

  /** The table holds twelve different texts, so a text identifies its reason. */
  lemma TextInjective(a: Reasons, b: Reasons)
    ensures Text(a) == Text(b) ==> a == b
  {
  }

  /** `Reasons.valueOf(name)`: the variant with the given symbolic name, if there is one. */
  function ValueOf(n: string): (r: Option<Reasons>)
    ensures r.Some? ==> Name(r.value) == n
    ensures r.None? ==> forall x: Reasons :: Name(x) != n
  {
    FindByName(Values(), n)
  }

  /** The first element of `vs` whose name is `n`. */
  function FindByName(vs: seq<Reasons>, n: string): (r: Option<Reasons>)
    ensures r.Some? ==> r.value in vs && Name(r.value) == n
    ensures r.None? ==> forall x :: x in vs ==> Name(x) != n
  {
    if vs == [] then None
    else if Name(vs[0]) == n then Some(vs[0])
    else FindByName(vs[1..], n)
  }

  /** Searching a sequence that holds `r` for the name of `r` finds `r`, since names are unique. */
  lemma {:induction false} FindByNameFinds(vs: seq<Reasons>, r: Reasons)
    requires r in vs
    ensures FindByName(vs, Name(r)) == Some(r)
  {
    if vs[0] != r {
      NameInjective(vs[0], r);
      assert r in vs[1..];
      FindByNameFinds(vs[1..], r);
    }
  }

  /** Name and `valueOf` are inverse: a variant's name looks up that variant. */
  lemma ValueOfName(r: Reasons)
    ensures ValueOf(Name(r)) == Some(r)
  {
    ValuesAtOrdinal(r);
    FindByNameFinds(Values(), r);
  }
}
