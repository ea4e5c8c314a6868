/**
 The account-facing part of `User`: trimming of console input, the check
 that the required registration fields are present, the INSERT that
 registers an account, and the password check used to log in.
 */
module User {
  import opened Wrappers
  import opened AccountStore
  import opened Outcomes

  /** The characters `String.trim` removes from both ends: every character
      up to and including the space, U+0020. */
  predicate IsBlank(c: char) {
    c <= ' '
  }

  /** Every character of `s` from index `lo` up to `hi` is blank. */
  predicate BlankBetween(s: string, lo: nat, hi: nat)
    requires lo <= hi <= |s|
  {
    forall i :: lo <= i < hi ==> IsBlank(s[i])
  }

  predicate AllBlank(s: string) {
    BlankBetween(s, 0, |s|)
  }

  /** A string `String.trim` leaves as it is: empty, or not blank at either end. */
  predicate IsTrimmed(s: string) {
    s == [] || (!IsBlank(s[0]) && !IsBlank(s[|s| - 1]))
  }

  /** The first loop of `String.trim`: from `st`, step over blanks. */
  function SkipLeading(s: string, st: nat): (n: nat)
    requires st <= |s|
    ensures st <= n <= |s|
    ensures BlankBetween(s, st, n)
    ensures n < |s| ==> !IsBlank(s[n])
    decreases |s| - st
  {
    if st < |s| && IsBlank(s[st]) then SkipLeading(s, st + 1) else st
  }

  /** The second loop of `String.trim`: from `len`, step back over blanks
      without passing `st`. */
  function SkipTrailing(s: string, st: nat, len: nat): (n: nat)
    requires st <= len <= |s|
    ensures st <= n <= len
    ensures BlankBetween(s, n, len)
    ensures st < n ==> !IsBlank(s[n - 1])
    decreases len - st
  {
    if st < len && IsBlank(s[len - 1]) then SkipTrailing(s, st, len - 1) else len
  }

  /** `String.trim`: `s` without its leading and trailing blanks. */
  function Trim(s: string): (r: string)
    ensures IsTrimmed(r)
    ensures SkipLeading(s, 0) + |r| <= |s|
    ensures r == s[SkipLeading(s, 0)..SkipLeading(s, 0) + |r|]
    ensures BlankBetween(s, 0, SkipLeading(s, 0))
    ensures BlankBetween(s, SkipLeading(s, 0) + |r|, |s|)
    ensures r == [] <==> AllBlank(s)
  {
    var st := SkipLeading(s, 0);
    var len := SkipTrailing(s, st, |s|);
    s[st..len]
  }

  /** `readInput`: the line read, trimmed. The scanner never hands back a
      null line, so the null branch is not modelled. */
  function ReadInput(line: string): (r: string)
    ensures IsTrimmed(r)
    ensures r == [] <==> AllBlank(line)
    ensures Trim(r) == r
  {
    TrimOfTrimmed(Trim(line));
    Trim(line)
  }

  /** `isInputInvalid`: full name, email or password is empty; the phone
      number is not checked. */
  predicate IsInputInvalid(fullName: string, email: string, password: string) {
    fullName == [] || email == [] || password == []
  }

  /** `validatePasswordInput`: the row for the email exists and its stored
      password equals the one entered, character for character. */
  function ValidatePasswordInput(s: Store, email: string, inputPassword: string): (ok: bool)
    ensures ok <==> email in s && s[email].password == inputPassword
    ensures email !in s ==> !ok
  {
    match Select(s, email)
    case Some(acct) => acct.password == inputPassword
    case None => false
  }

  /** `handleLogin` without its console: both lines are read through
      `readInput` and handed to the password check. */
  function Login(s: Store, emailLine: string, passwordLine: string): (ok: bool)
    ensures ok <==> Trim(emailLine) in s && s[Trim(emailLine)].password == Trim(passwordLine)
  {
    ValidatePasswordInput(s, ReadInput(emailLine), ReadInput(passwordLine))
  }

  /** `handleRegistration` without its console: read the four lines, refuse
      when a required field is empty, otherwise INSERT the row; a duplicate
      email makes the driver raise, which is reported and changes nothing. */
  function Register(s: Store, fullNameLine: string, emailLine: string,
                    passwordLine: string, phoneLine: string): (r: Step)
    ensures r.outcome in {Ok, Rejected, StorageError}
    ensures r.outcome == Rejected <==>
              AllBlank(fullNameLine) || AllBlank(emailLine) || AllBlank(passwordLine)
    ensures r.outcome == StorageError <==>
              !(AllBlank(fullNameLine) || AllBlank(emailLine) || AllBlank(passwordLine))
              && Trim(emailLine) in s
    ensures r.outcome != Ok ==> r.store == s
    ensures s.Keys <= r.store.Keys
    ensures NonNegative(s) ==> NonNegative(r.store)
    ensures r.outcome == Ok ==>
              && Trim(emailLine) !in s
              && r.store == s[Trim(emailLine) := Account(Trim(fullNameLine), Trim(passwordLine),
                                                         Trim(phoneLine), DefaultBalance)]
  {
    var fullName := ReadInput(fullNameLine);
    var email := ReadInput(emailLine);
    var password := ReadInput(passwordLine);
    var phone := ReadInput(phoneLine);
    if IsInputInvalid(fullName, email, password) then
      Step(s, Rejected)
    else
      match Insert(s, email, Account(fullName, password, phone, DefaultBalance))
      case None => Step(s, StorageError)
      case Some(inserted) => Step(inserted, Ok)
  }

  /** The first loop's stopping point is determined by what it promises. */
  lemma SkipLeadingUnique(s: string, st: nat, n: nat)
    requires st <= n <= |s| && BlankBetween(s, st, n) && (n < |s| ==> !IsBlank(s[n]))
    ensures SkipLeading(s, st) == n
  {
  }

  /** The second loop's stopping point is determined by what it promises. */
  lemma SkipTrailingUnique(s: string, st: nat, len: nat, n: nat)
    requires st <= n <= len <= |s| && BlankBetween(s, n, len) && (st < n ==> !IsBlank(s[n - 1]))
    ensures SkipTrailing(s, st, len) == n
  {
  }

  /** Trimming a trimmed string changes nothing. */
  lemma TrimOfTrimmed(t: string)
    requires IsTrimmed(t)
    ensures Trim(t) == t
  {
    SkipLeadingUnique(t, 0, 0);
    SkipTrailingUnique(t, 0, |t|, |t|);
  }

  /** `String.trim` is idempotent. */
  lemma TrimIdempotent(s: string)
    ensures Trim(Trim(s)) == Trim(s)
  {
    TrimOfTrimmed(Trim(s));
  }

  /** Trimming undoes padding a trimmed string with blanks on either side. */
  lemma TrimOfPadded(pre: string, t: string, post: string)
    requires AllBlank(pre) && AllBlank(post) && IsTrimmed(t)
    ensures Trim(pre + t + post) == t
  {
    var s := pre + t + post;
    assert BlankBetween(s, 0, |pre|) by {
      forall i | 0 <= i < |pre| ensures IsBlank(s[i]) { assert s[i] == pre[i]; }
    }
    assert BlankBetween(s, |pre| + |t|, |s|) by {
      forall i | |pre| + |t| <= i < |s| ensures IsBlank(s[i]) {
        assert s[i] == post[i - |pre| - |t|];
      }
    }
    if t == [] {
      SkipLeadingUnique(s, 0, |s|);
    } else {
      assert s[|pre|] == t[0];
      assert s[|pre| + |t| - 1] == t[|t| - 1];
      SkipLeadingUnique(s, 0, |pre|);
      SkipTrailingUnique(s, |pre|, |s|, |pre| + |t|);
      assert s[|pre|..|pre| + |t|] == t;
    }
  }

  /** On lines read through `readInput`, the required-field check fails
      exactly when one of the three lines is all blanks. */
  lemma IsInputInvalidOnReadLines(fullNameLine: string, emailLine: string, passwordLine: string)
    ensures IsInputInvalid(ReadInput(fullNameLine), ReadInput(emailLine), ReadInput(passwordLine))
            <==> AllBlank(fullNameLine) || AllBlank(emailLine) || AllBlank(passwordLine)
  {
  }

  /** A line made only of blanks is refused as a required field. */
  lemma BlankFieldRejected(s: Store, fullNameLine: string, emailLine: string,
                           passwordLine: string, phoneLine: string)
    requires AllBlank(fullNameLine) || AllBlank(emailLine) || AllBlank(passwordLine)
    ensures Register(s, fullNameLine, emailLine, passwordLine, phoneLine) == Step(s, Rejected)
  {
  }

  /** Registration adds exactly one row, under the trimmed email, and keeps
      the balances non-negative and their sum unchanged. */
  lemma RegisterAddsOneAccount(s: Store, fullNameLine: string, emailLine: string,
                               passwordLine: string, phoneLine: string)
    requires Register(s, fullNameLine, emailLine, passwordLine, phoneLine).outcome == Ok
    ensures var t := Register(s, fullNameLine, emailLine, passwordLine, phoneLine).store;
            && t.Keys == s.Keys + {Trim(emailLine)}
            && |t| == |s| + 1
            && (forall e :: e in s ==> t[e] == s[e])
            && (NonNegative(s) ==> NonNegative(t))
            && Total(t) == Total(s)
  {
    var email := Trim(emailLine);
    TotalAdd(s, email, Account(Trim(fullNameLine), Trim(passwordLine), Trim(phoneLine), DefaultBalance));
  }

  /** Whoever has just registered can log in with the same lines, and the
      password check accepts the trimmed email and password. */
  lemma RegisterThenLogin(s: Store, fullNameLine: string, emailLine: string,
                          passwordLine: string, phoneLine: string)
    requires Register(s, fullNameLine, emailLine, passwordLine, phoneLine).outcome == Ok
    ensures var t := Register(s, fullNameLine, emailLine, passwordLine, phoneLine).store;
            && ValidatePasswordInput(t, Trim(emailLine), Trim(passwordLine))
            && Login(t, emailLine, passwordLine)
  {
  }
}
