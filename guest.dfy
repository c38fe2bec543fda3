/** The guest record of the schema in src/models/Guest.ts: its fields, the
    defaults a new record receives, the `trim` and `lowercase` setters, and the
    shape of a reservation code drawn by the controller's generator. */
module GuestModel {

  datatype Option<+T> = None | Some(value: T)

  /** The store-assigned identifier (`_id`). */
  type GuestId = nat

  /** One stored guest. Field names follow the schema:
      name = nombre_invitado, reservationCode = codigo_reserva,
      maxCompanions = max_acompanantes, confirmed = confirmado,
      confirmationEmail = email_confirmacion,
      confirmedCompanions = acompanantes_confirmados;
      createdAt / updatedAt are the store's timestamps, as ticks of a counter. */
  datatype Guest = Guest(
    id: GuestId,
    name: string,
    reservationCode: string,
    maxCompanions: int,
    confirmed: bool,
    confirmationEmail: Option<string>,
    confirmedCompanions: int,
    createdAt: nat,
    updatedAt: nat)

  // ---------------------------------------------------------------------------
  // The `trim` setter: String.prototype.trim

  /** White space and line terminators, the characters `trim` removes. */
  predicate IsSpace(c: char) {
    || c == '\t' || c == '\n' || c == '\U{B}' || c == '\U{C}' || c == '\r'
    || c == ' ' || c == '\U{A0}' || c == '\U{1680}'
    || ('\U{2000}' <= c <= '\U{200A}')
    || c == '\U{2028}' || c == '\U{2029}' || c == '\U{202F}' || c == '\U{205F}'
    || c == '\U{3000}' || c == '\U{FEFF}'
  }

  predicate AllSpace(s: string) {
    forall k :: 0 <= k < |s| ==> IsSpace(s[k])
  }

  /** Neither starts nor ends with a space. */
  predicate Trimmed(s: string) {
    s == [] || (!IsSpace(s[0]) && !IsSpace(s[|s| - 1]))
  }

  /** `s` is `r` surrounded by spaces, with `r` starting at index `i`. */
  predicate PaddedBy(s: string, r: string, i: nat) {
    && i + |r| <= |s|
    && s[i..i + |r|] == r
    && AllSpace(s[..i])
    && AllSpace(s[i + |r|..])
  }

  /** Number of spaces at the start of `s`. */
  function LeadingSpace(s: string): (n: nat)
    ensures n <= |s|
    ensures AllSpace(s[..n])
    ensures n < |s| ==> !IsSpace(s[n])
  {
    if s != [] && IsSpace(s[0]) then
      var n := 1 + LeadingSpace(s[1..]);
      assert s[..n] == [s[0]] + s[1..][..n - 1];
      n
    else 0
  }

  /** Number of spaces at the end of `s`. */
  function TrailingSpace(s: string): (n: nat)
    ensures n <= |s|
    ensures forall k :: |s| - n <= k < |s| ==> IsSpace(s[k])
    ensures n < |s| ==> !IsSpace(s[|s| - 1 - n])
  {
    if s != [] && IsSpace(s[|s| - 1]) then 1 + TrailingSpace(s[..|s| - 1]) else 0
  }

  function Trim(s: string): (r: string)
    ensures Trimmed(r)
    ensures PaddedBy(s, r, LeadingSpace(s))
  {
    var i := LeadingSpace(s);
    var rest := s[i..];
    var t := TrailingSpace(rest);
    var r := rest[..|rest| - t];
    assert s[i..i + |r|] == r;
    var tail := s[i + |r|..];
    assert AllSpace(tail) by {
      forall k | 0 <= k < |tail| ensures IsSpace(tail[k]) {
        assert tail[k] == rest[|rest| - t + k];
      }
    }
    r
  }

  /** A string has only one trimmed core: two ways of writing `s` as spaces,
      a trimmed middle and spaces have the same middle. */
  lemma PaddingUnique(s: string, r1: string, i1: nat, r2: string, i2: nat)
    requires Trimmed(r1) && PaddedBy(s, r1, i1)
    requires Trimmed(r2) && PaddedBy(s, r2, i2)
    ensures r1 == r2
  {
  }

  /** Trim is characterised by its contract: any trimmed middle of `s` between
      spaces is `Trim(s)`. */
  lemma {:induction false} TrimUnique(s: string, r: string, i: nat)
    requires Trimmed(r) && PaddedBy(s, r, i)
    ensures Trim(s) == r
  {
    PaddingUnique(s, r, i, Trim(s), LeadingSpace(s));
  }

  lemma {:induction false} TrimIdempotent(s: string)
    ensures Trim(Trim(s)) == Trim(s)
  {
    var t := Trim(s);
    assert t[0..|t|] == t && t[..0] == [] && t[|t|..] == [];
    TrimUnique(t, t, 0);
  }

  /** A value trims to the empty string exactly when it is all spaces, which is
      when the schema's `required` check rejects it. */
  lemma {:induction false} TrimEmptyIffAllSpace(s: string)
    ensures Trim(s) == [] <==> AllSpace(s)
  {
    if AllSpace(s) {
      assert s[..|s|] == s && s[|s|..] == [] && s[|s|..|s|] == [];
      TrimUnique(s, [], |s|);
    } else {
      var i := LeadingSpace(s);
      if i == |s| {
        assert false;
      }
      if Trim(s) == [] {
        assert false;
      }
    }
  }

  // ---------------------------------------------------------------------------
  // The `lowercase` setter

  predicate IsUpper(c: char) { 'A' <= c <= 'Z' }

  function LowerChar(c: char): char {
    if IsUpper(c) then (c as int + 32) as char else c
  }

  predicate NoUpper(s: string) {
    forall k :: 0 <= k < |s| ==> !IsUpper(s[k])
  }

  /** Lower-cases the letters A to Z; equal to `s` up to case, character by
      character, with no upper-case letter left. */
  function LowerCase(s: string): (r: string)
    ensures |r| == |s| && NoUpper(r)
    ensures forall k :: 0 <= k < |s| ==> LowerChar(r[k]) == LowerChar(s[k])
  {
    if s == [] then [] else [LowerChar(s[0])] + LowerCase(s[1..])
  }

  /** The contract of LowerCase determines its result. */
  lemma {:induction false} LowerCaseUnique(s: string, r: string)
    requires |r| == |s| && NoUpper(r)
    requires forall k :: 0 <= k < |s| ==> LowerChar(r[k]) == LowerChar(s[k])
    ensures LowerCase(s) == r
  {
    var l := LowerCase(s);
    forall k | 0 <= k < |s| ensures l[k] == r[k] {
      assert LowerChar(l[k]) == l[k] && LowerChar(r[k]) == r[k];
    }
  }

  lemma {:induction false} LowerCasePreservesSpace(s: string)
    ensures forall k :: 0 <= k < |s| ==> (IsSpace(LowerCase(s)[k]) <==> IsSpace(s[k]))
  {
    var l := LowerCase(s);
    forall k | 0 <= k < |s| ensures IsSpace(l[k]) <==> IsSpace(s[k]) {
      assert !IsUpper(l[k]);
      assert LowerChar(l[k]) == LowerChar(s[k]);
    }
  }

  /** The schema's `trim` and `lowercase` setters give the same value in
      either order. */
  lemma {:induction false} TrimLowerCaseCommute(s: string)
    ensures LowerCase(Trim(s)) == Trim(LowerCase(s))
  {
    var l, t, i := LowerCase(s), Trim(s), LeadingSpace(s);
    var lt := LowerCase(t);
    LowerCasePreservesSpace(s);
    LowerCasePreservesSpace(t);
    forall k | 0 <= k < |lt| ensures l[i + k] == lt[k] {
      assert s[i..i + |t|][k] == t[k];
      assert LowerChar(l[i + k]) == l[i + k] && LowerChar(lt[k]) == lt[k];
    }
    assert l[i..i + |t|] == lt;
    var head, tail := l[..i], l[i + |t|..];
    forall k | 0 <= k < |head| ensures IsSpace(head[k]) {
      assert s[..i][k] == s[k];
    }
    forall k | 0 <= k < |tail| ensures IsSpace(tail[k]) {
      assert s[i + |t|..][k] == s[i + |t| + k];
    }
    TrimUnique(l, lt, i);
  }

  /** The stored form of `email_confirmacion`: trimmed, then lower-cased. */
  function NormalizeEmail(e: string): (r: string)
    ensures Trimmed(r) && NoUpper(r)
    ensures |r| == |Trim(e)| <= |e|
    ensures forall k :: 0 <= k < |r| ==> LowerChar(r[k]) == LowerChar(Trim(e)[k])
  {
    var t := Trim(e);
    LowerCasePreservesSpace(t);
    LowerCase(t)
  }

  /** The form `email_confirmacion` is stored in. */
  predicate IsNormalEmail(e: string) {
    Trimmed(e) && NoUpper(e)
  }

  /** The emails in stored form are exactly those normalisation leaves alone. */
  lemma {:induction false} NormalEmailIsFixed(e: string)
    ensures IsNormalEmail(e) <==> NormalizeEmail(e) == e
  {
    if IsNormalEmail(e) {
      assert e[0..|e|] == e && e[..0] == [] && e[|e|..] == [];
      TrimUnique(e, e, 0);
      LowerCaseUnique(e, e);
    }
  }

  /** Normalising a stored email again changes nothing. */
  lemma {:induction false} NormalizeEmailIdempotent(e: string)
    ensures NormalizeEmail(NormalizeEmail(e)) == NormalizeEmail(e)
  {
    NormalEmailIsFixed(NormalizeEmail(e));
  }

  // ---------------------------------------------------------------------------
  // Reservation codes: customAlphabet("A..Z0..9", 6)

  const Alphabet: string := "ABCDEFGHIJKLMNOPQRSTUVWXYZ0123456789"
  const CodeLength: nat := 6

  predicate IsCodeChar(c: char) {
    'A' <= c <= 'Z' || '0' <= c <= '9'
  }

  /** The codes the generator can produce: six characters from A-Z, 0-9. */
  predicate IsReservationCode(code: string) {
    |code| == CodeLength && forall k :: 0 <= k < |code| ==> IsCodeChar(code[k])
  }

  /** One draw of the generator: six positions in the alphabet. */
  predicate IsDraw(draw: seq<nat>) {
    |draw| == CodeLength && forall k :: 0 <= k < |draw| ==> draw[k] < |Alphabet|
  }

  /** Position `i` of the alphabet, computed from the character ranges. */
  function AlphabetChar(i: nat): char
    requires i < 36
  {
    if i < 26 then ('A' as int + i) as char else ('0' as int + (i - 26)) as char
  }

  lemma AlphabetLayout()
    ensures |Alphabet| == 36
    ensures forall i :: 0 <= i < 36 ==> Alphabet[i] == AlphabetChar(i)
  {
  }

  /** Where a code character sits in the alphabet. */
  function AlphabetIndex(c: char): (i: nat)
    requires IsCodeChar(c)
    ensures i < |Alphabet| && Alphabet[i] == c
  {
    AlphabetLayout();
    if 'A' <= c <= 'Z' then c as int - 'A' as int else 26 + (c as int - '0' as int)
  }

  /** The code a draw spells out. */
  function GenerateReservationCode(draw: seq<nat>): (code: string)
    requires IsDraw(draw)
    ensures IsReservationCode(code)
  {
    AlphabetLayout();
    seq(CodeLength, k requires 0 <= k < CodeLength => Alphabet[draw[k]])
  }

  /** Every reservation code is spelled by some draw ... */
  lemma EveryCodeIsGenerated(code: string)
    requires IsReservationCode(code)
    ensures exists draw :: IsDraw(draw) && GenerateReservationCode(draw) == code
  {
    var draw := seq(CodeLength, k requires 0 <= k < CodeLength => AlphabetIndex(code[k]));
    assert GenerateReservationCode(draw) == code;
  }

  /** ... and by only one, so a uniform draw gives a uniform code. */
  lemma GeneratedCodesDiffer(d1: seq<nat>, d2: seq<nat>)
    requires IsDraw(d1) && IsDraw(d2) && d1 != d2
    ensures GenerateReservationCode(d1) != GenerateReservationCode(d2)
  {
    AlphabetLayout();
    var k :| 0 <= k < CodeLength && d1[k] != d2[k];
    assert GenerateReservationCode(d1)[k] == AlphabetChar(d1[k]);
    assert GenerateReservationCode(d2)[k] == AlphabetChar(d2[k]);
  }

  // ---------------------------------------------------------------------------
  // New records

  /** Not yet confirmed, with the schema defaults for the confirmation fields. */
  predicate IsUnconfirmed(g: Guest) {
    !g.confirmed && g.confirmationEmail == None && g.confirmedCompanions == 0
  }

  /** The record `new Guest({...})` builds: the name goes through `trim`,
      `confirmado`, `email_confirmacion` and `acompanantes_confirmados` take
      their defaults, both timestamps are the current tick. */
  function NewGuest(id: GuestId, name: string, maxCompanions: int, code: string, now: nat): (g: Guest)
    ensures IsUnconfirmed(g)
    ensures Trimmed(g.name) && PaddedBy(name, g.name, LeadingSpace(name))
    ensures g.id == id && g.reservationCode == code && g.maxCompanions == maxCompanions
    ensures g.createdAt == now && g.updatedAt == now
  {
    Guest(id, Trim(name), code, maxCompanions, false, None, 0, now, now)
  }
}
