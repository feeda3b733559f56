/** pages/2_Attendance_Submission.py: a six-digit password drawn once per
    session, and the report-in latch that records a correct answer. The
    random draw is a parameter. */
module AttendanceSubmission {
  import opened Common

  // ---------------------------------------------------------------------
  // The password

  function Pow10(k: nat): (r: nat)
    ensures r > 0
  {
    if k == 0 then 1 else 10 * Pow10(k - 1)
  }

  predicate AllDigits(s: string) {
    forall k :: 0 <= k < |s| ==> '0' <= s[k] <= '9'
  }

  /** `f"{n:0width}"` for n below 10^width: the last `width` decimal digits
      of n, zero-padded on the left. */
  function Padded(n: nat, width: nat): (r: string)
    ensures |r| == width && AllDigits(r)
  {
    if width == 0 then [] else Padded(n / 10, width - 1) + [DigitChar(n % 10)]
  }

  /** The number a string of decimal digits denotes. */
  function DigitsValue(s: string): nat
    requires AllDigits(s)
  {
    if s == [] then 0 else DigitsValue(s[..|s| - 1]) * 10 + (s[|s| - 1] as int - '0' as int)
  }

  lemma DigitCharValue(d: nat)
    requires d < 10
    ensures DigitChar(d) as int - '0' as int == d
  {
    var digits := ['0', '1', '2', '3', '4', '5', '6', '7', '8', '9'];
    assert forall k :: 0 <= k < 10 ==> digits[k] as int - '0' as int == k;
  }

  lemma ModUnique(n: nat, d: nat, q: nat, r: nat)
    requires d > 0 && n == q * d + r && r < d
    ensures n % d == r
  {
    var k := q - n / d;
    MulBounds(k, d);
    assert k * d == (n % d) - r;
  }

  lemma MulBounds(k: int, d: int)
    requires d >= 0
    ensures k >= 1 ==> k * d >= d
    ensures k <= -1 ==> k * d <= -d
  {
  }

  /** One decimal digit more: n modulo 10p from n / 10 modulo p. */
  lemma ModStep(n: nat, p: nat)
    requires p > 0
    ensures n % (10 * p) == 10 * ((n / 10) % p) + n % 10
  {
    var q := n / 10;
    var b := q % p;
    var a := q / p;
    assert q == a * p + b;
    assert n == 10 * q + n % 10;
    assert 10 * q == a * (10 * p) + 10 * b;
    assert 10 * b + n % 10 < 10 * p;
    ModUnique(n, 10 * p, a, 10 * b + n % 10);
  }

  /** Reading the padded digits back gives n modulo 10^width. */
  lemma {:induction false} PaddedValue(n: nat, width: nat)
    ensures DigitsValue(Padded(n, width)) == n % Pow10(width)
  {
    if width > 0 {
      var p := Padded(n, width);
      assert p[..|p| - 1] == Padded(n / 10, width - 1);
      PaddedValue(n / 10, width - 1);
      DigitCharValue(n % 10);
      ModStep(n, Pow10(width - 1));
    }
  }

  /** The number of possible draws: `secrets.randbelow(1000000)`. */
  const Draws: nat := 1000000

  /** The password of a draw. */
  function Password(draw: nat): (r: string)
    requires draw < Draws
    ensures |r| == 6 && AllDigits(r)
  {
    Padded(draw, 6)
  }

  /** The password spells out its draw, so two draws give two passwords. */
  lemma PasswordSpellsDraw(draw: nat, other: nat)
    requires draw < Draws && other < Draws
    ensures DigitsValue(Password(draw)) == draw
    ensures Password(draw) == Password(other) <==> draw == other
  {
    PaddedValue(draw, 6);
    PaddedValue(other, 6);
    assert Pow10(1) == 10 && Pow10(2) == 100 && Pow10(3) == 1000;
    assert Pow10(4) == 10000 && Pow10(5) == 100000 && Pow10(6) == Draws;
    ModUnique(draw, Draws, 0, draw);
    ModUnique(other, Draws, 0, other);
  }

  // ---------------------------------------------------------------------
  // The latch

  /** One press of "Report In" (or a rerun without a press): a press with the
      right answer sets the flag; nothing clears it. */
  function Latch(correct: bool, password: string, pressed: bool, answer: string): bool {
    if pressed && !correct then answer == password else correct
  }

  /** The flag after a run of attempts, each a press flag and an answer. */
  function LatchAll(correct: bool, password: string, attempts: seq<(bool, string)>): bool
    decreases attempts
  {
    if attempts == [] then correct
    else LatchAll(Latch(correct, password, attempts[0].0, attempts[0].1), password, attempts[1..])
  }

  /** From a fresh session the flag is set exactly when some attempt pressed
      the button with the right answer; once set it stays set. */
  lemma {:induction false} LatchAllSetsOnce(correct: bool, password: string, attempts: seq<(bool, string)>)
    ensures correct ==> LatchAll(correct, password, attempts)
    ensures !correct ==> (LatchAll(correct, password, attempts) <==>
                            exists i :: 0 <= i < |attempts| && attempts[i].0 && attempts[i].1 == password)
    decreases attempts
  {
    if attempts != [] {
      var next := Latch(correct, password, attempts[0].0, attempts[0].1);
      LatchAllSetsOnce(next, password, attempts[1..]);
      if !correct && !next {
        assert !(attempts[0].0 && attempts[0].1 == password);
        forall i | 1 <= i < |attempts| ensures attempts[i] == attempts[1..][i - 1] {}
      }
    }
  }

  const StatusPrefix := "Attendance Staus: "

  /** The status line: "Reported" when the flag is set. */
  function StatusLine(correct: bool): (r: string)
    ensures |r| > |StatusPrefix| && r[..|StatusPrefix|] == StatusPrefix
    ensures r[|StatusPrefix|..] == "Reported" <==> correct
  {
    if correct then StatusPrefix + "Reported" else StatusPrefix + "Needs Reported"
  }

  /** The message under the button. */
  datatype Feedback = NoFeedback | CorrectPassword | WrongPassword

  /** The session state the page keeps: the password (missing before the
      first run) and the flag. */
  class AttendanceSession {
    var password: Option<string>
    var correctPassword: bool

    constructor ()
      ensures password.None? && !correctPassword
    {
      password := None;
      correctPassword := false;
    }

    /** One run of the page: draw the password if the session has none,
        show the status, and handle a press of "Report In". Returns the
        status line as it ends up on screen and the feedback. */
    method Run(draw: nat, pressed: bool, answer: string) returns (shown: string, feedback: Feedback)
      requires draw < Draws
      modifies this
      ensures old(password).None? ==> password == Some(Password(draw))
      ensures old(password).Some? ==> password == old(password)
      ensures var before := if old(password).None? then false else old(correctPassword);
              correctPassword == Latch(before, password.value, pressed, answer)
      ensures feedback == (if !pressed || (old(password).Some? && old(correctPassword)) then NoFeedback
                           else if answer == password.value then CorrectPassword else WrongPassword)
      ensures shown == StatusLine(correctPassword)
    {
      if password.None? {
        password := Some(Password(draw));
        correctPassword := false;
      }
      var pw := password.value;
      var correct := correctPassword;
      shown := StatusLine(correct);
      feedback := NoFeedback;
      if pressed && !correct {
        if answer == pw {
          feedback := CorrectPassword;
          correctPassword := true;
          shown := StatusLine(true);
        } else {
          feedback := WrongPassword;
        }
      }
    }
  }
}
