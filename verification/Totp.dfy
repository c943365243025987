/** Time-based one-time codes (RFC 6238): the window search with its replay gate. */
module Totp {
  import opened Results

  const STEP_SECONDS := 30
  const WINDOW := 1

  /** Which code a secret shows in a time step; the HMAC inside it is not modelled. */
  type CodeAt = (nat, int) -> string

  predicate IsDigits(code: string) {
    code != "" && forall i | 0 <= i < |code| :: '0' <= code[i] <= '9'
  }

  /** A step is acceptable if it is past the last accepted one and shows the code. */
  predicate Acceptable(codeAt: CodeAt, secret: nat, code: string, last: Option<int>, step: int) {
    (last.None? || step > last.value) && codeAt(secret, step) == code
  }

  predicate InWindow(now: nat, step: int) {
    now / STEP_SECONDS - WINDOW <= step <= now / STEP_SECONDS + WINDOW
  }

  /** The earliest acceptable step from `step` on, up to `until`. */
  function Earliest(codeAt: CodeAt, secret: nat, code: string, last: Option<int>, step: int, until: int): (r: Option<int>)
    ensures r.Some? ==> step <= r.value <= until && Acceptable(codeAt, secret, code, last, r.value)
    ensures forall k | step <= k <= until && Acceptable(codeAt, secret, code, last, k) :: r.Some? && r.value <= k
    decreases until - step + 1
  {
    if step > until then None
    else if Acceptable(codeAt, secret, code, last, step) then Some(step)
    else Earliest(codeAt, secret, code, last, step + 1, until)
  }

  function VerifiedStep(codeAt: CodeAt, secret: nat, code: string, last: Option<int>, now: nat): Option<int> {
    if !IsDigits(code) then None
    else Earliest(codeAt, secret, code, last, now / STEP_SECONDS - WINDOW, now / STEP_SECONDS + WINDOW)
  }

  /** `verify_totp_code`: the first acceptable step of the window, or none. */
  method VerifyTotpCode(codeAt: CodeAt, secret: nat, code: string, last: Option<int>, now: nat) returns (r: Option<int>)
    ensures r == VerifiedStep(codeAt, secret, code, last, now)
    ensures r.Some? ==> IsDigits(code) && InWindow(now, r.value) && Acceptable(codeAt, secret, code, last, r.value)
    ensures r.None? && IsDigits(code) ==> forall k | InWindow(now, k) :: !Acceptable(codeAt, secret, code, last, k)
  {
    if !IsDigits(code) {
      return None;
    }
    var current := now / STEP_SECONDS;
    var offset := -WINDOW;
    while offset <= WINDOW
      invariant -WINDOW <= offset <= WINDOW + 1
      invariant VerifiedStep(codeAt, secret, code, last, now)
             == Earliest(codeAt, secret, code, last, current + offset, current + WINDOW)
      decreases WINDOW - offset
    {
      var candidate := current + offset;
      if !(last.Some? && candidate <= last.value) {
        if codeAt(secret, candidate) == code {
          return Some(candidate);
        }
      }
      offset := offset + 1;
    }
    r := None;
  }

  /** Step `k` shows the code, is at most one half-minute off, and is past the last accepted one. */
  predicate Shows(codeAt: CodeAt, secret: nat, code: string, last: Option<int>, now: nat, k: int) {
    now / 30 - 1 <= k <= now / 30 + 1 && (last.Some? ==> k > last.value) && codeAt(secret, k) == code
  }

  /** A code verifies at the earliest step that shows it, and not at all if it is no number or no step does. */
  lemma VerifiesExactly(codeAt: CodeAt, secret: nat, code: string, last: Option<int>, now: nat, k: int)
    ensures VerifiedStep(codeAt, secret, code, last, now) == Some(k) <==>
            && code != "" && (forall i | 0 <= i < |code| :: '0' <= code[i] <= '9')
            && Shows(codeAt, secret, code, last, now, k) && forall j | Shows(codeAt, secret, code, last, now, j) :: k <= j
  {
    var r := VerifiedStep(codeAt, secret, code, last, now);
    if IsDigits(code) {
      forall j
        ensures Shows(codeAt, secret, code, last, now, j) <==> InWindow(now, j) && Acceptable(codeAt, secret, code, last, j)
      {
      }
      if r.Some? {
        assert Shows(codeAt, secret, code, last, now, r.value);
      }
    }
  }

  /** Some step shows it. */
  ghost predicate CanVerify(codeAt: CodeAt, secret: nat, code: string, last: Option<int>, now: nat) {
    && code != "" && (forall i | 0 <= i < |code| :: '0' <= code[i] <= '9')
    && exists k :: Shows(codeAt, secret, code, last, now, k)
  }

  lemma VerifiesIff(codeAt: CodeAt, secret: nat, code: string, last: Option<int>, now: nat)
    ensures VerifiedStep(codeAt, secret, code, last, now).Some? <==> CanVerify(codeAt, secret, code, last, now)
  {
    var r := VerifiedStep(codeAt, secret, code, last, now);
    if r.Some? {
      VerifiesExactly(codeAt, secret, code, last, now, r.value);
    }
    if CanVerify(codeAt, secret, code, last, now) {
      var k :| Shows(codeAt, secret, code, last, now, k);
      assert Acceptable(codeAt, secret, code, last, k);
    }
  }
}
