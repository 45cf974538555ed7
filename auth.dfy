/** Accounts and kanji collections (auth.py). The MongoDB `users` collection is a
    sequence of user documents in natural order, `find_one` is the first match, and a
    user's `kanji_collection` is an insertion-ordered association list, as a Python dict
    and the stored BSON document keep it. bcrypt and JWT are not modelled: a hash is an
    input, and checking a password against one is a predicate given by the caller. */
module Auth {
  import opened Wrappers
  import opened Text
  import opened Sorting

  // ---------------------------------------------------------------------------
  // Field validation
  // ---------------------------------------------------------------------------

  /** The character classes of the two regular expressions. */
  datatype CharClass =
    | LocalChars   // [a-zA-Z0-9._%+-]
    | DomainChars  // [a-zA-Z0-9.-]
    | Letters      // [a-zA-Z]
    | WordChars    // [a-zA-Z0-9_]

  predicate InClass(c: char, k: CharClass)
  {
    var letter := 'a' <= c <= 'z' || 'A' <= c <= 'Z';
    match k
    case LocalChars => letter || IsDigit(c) || c == '.' || c == '_' || c == '%' || c == '+' || c == '-'
    case DomainChars => letter || IsDigit(c) || c == '.' || c == '-'
    case Letters => letter
    case WordChars => letter || IsDigit(c) || c == '_'
  }

  /** Every character of `s` from `lo` up to `hi` is in class `k`. */
  predicate AllIn(s: string, lo: int, hi: int, k: CharClass)
    requires 0 <= lo <= hi <= |s|
  {
    forall i :: lo <= i < hi ==> InClass(s[i], k)
  }

  /** `[a-zA-Z0-9._%+-]+@[a-zA-Z0-9.-]+\.[a-zA-Z]{2,}` matching all of `s`, with the '@'
      at `a` and the '.' before the top-level domain at `d`. */
  predicate EmailAt(s: string, a: int, d: int)
  {
    && 1 <= a && a + 2 <= d && d + 3 <= |s| && s[a] == '@' && s[d] == '.'
    && AllIn(s, 0, a, LocalChars) && AllIn(s, a + 1, d, DomainChars) && AllIn(s, d + 1, |s|, Letters)
  }

  /** The email pattern matches all of `s`, at some split. */
  predicate EmailShape(s: string)
  {
    exists a, d | 0 <= a < |s| && 0 <= d < |s| :: EmailAt(s, a, d)
  }

  /** The split is unambiguous: the '@' is the only one, and the '.' is the last one. */
  lemma EmailSplitUnique(s: string, a: int, d: int, a2: int, d2: int)
    requires EmailAt(s, a, d) && EmailAt(s, a2, d2)
    ensures a == a2 && d == d2
  {
    assert forall i :: 0 <= i < |s| && i != a ==> s[i] != '@' by {
      forall i | 0 <= i < |s| && i != a
        ensures s[i] != '@'
      {
        if i < a {
          assert InClass(s[i], LocalChars);
        } else if i < d {
          assert InClass(s[i], DomainChars);
        } else if d < i {
          assert InClass(s[i], Letters);
        }
      }
    }
    assert forall i :: d < i < |s| ==> s[i] != '.' by {
      forall i | d < i < |s|
        ensures s[i] != '.'
      {
        assert InClass(s[i], Letters);
      }
    }
    assert forall i :: d2 < i < |s| ==> s[i] != '.' by {
      forall i | d2 < i < |s|
        ensures s[i] != '.'
      {
        assert InClass(s[i], Letters);
      }
    }
  }

  /** `^[a-zA-Z0-9_]+` */
  predicate UsernameShape(u: string) { |u| >= 1 && AllIn(u, 0, |u|, WordChars) }

  /** The two patterns anchored at both ends. */
  datatype Pattern = EmailAddress | UsernameWord

  predicate Whole(p: Pattern, s: string)
  {
    match p
    case EmailAddress => EmailShape(s)
    case UsernameWord => UsernameShape(s)
  }

  /** Drops one final newline. */
  function DropFinalNewline(s: string): (r: string)
    ensures r == s || (s == r + "\n")
  {
    if s != [] && s[|s| - 1] == '\n' then s[..|s| - 1] else s
  }

  /** Python's `re.match(pattern + '$', s)`. `$` matches at the end and also just before
      a final newline; neither pattern matches a string that ends in a newline, so this
      is the pattern on the string with one final newline dropped. */
  predicate MatchesToEnd(s: string, p: Pattern)
  {
    Whole(p, DropFinalNewline(s))
  }

  /** `validate_email`. */
  predicate ValidateEmail(email: string)
    ensures ValidateEmail(email) <==>
              EmailShape(email) || (email != [] && email[|email| - 1] == '\n' && EmailShape(email[..|email| - 1]))
  {
    NewlineEndsNoEmail(email);
    MatchesToEnd(email, EmailAddress)
  }

  /** An address never ends in a newline: its last character is a letter. */
  lemma NewlineEndsNoEmail(s: string)
    ensures s != [] && s[|s| - 1] == '\n' ==> !EmailShape(s)
  {
    if s != [] && s[|s| - 1] == '\n' {
      forall a, d
        ensures !EmailAt(s, a, d)
      {
        if 1 <= a && a + 2 <= d && d + 3 <= |s| {
          assert !InClass(s[|s| - 1], Letters);
        }
      }
    }
  }

  /** The `$` of the pattern lets a valid address with a newline after it through. */
  lemma ValidateEmailFinalNewline(email: string)
    requires EmailShape(email)
    ensures ValidateEmail(email + "\n") && !EmailShape(email + "\n")
  {
    var s := email + "\n";
    assert DropFinalNewline(s) == email;
    forall a, d
      ensures !EmailAt(s, a, d)
    {
      if 1 <= a && a + 2 <= d && d + 3 <= |s| {
        assert !InClass(s[|s| - 1], Letters);
      }
    }
  }

  /** `validate_password`. */
  function ValidatePassword(password: string): (r: (bool, Message))
    ensures r.0 <==> |password| >= 6
    ensures r.1 == if r.0 then PasswordValid else Rejected(ShortPassword)
  {
    if |password| < 6 then (false, Rejected(ShortPassword))
    else (true, PasswordValid)
  }

  /** Without a final newline `$` adds nothing. */
  lemma NoFinalNewline(s: string, p: Pattern)
    requires s == [] || s[|s| - 1] != '\n'
    ensures MatchesToEnd(s, p) == Whole(p, s)
  {
  }

  /** A stripped and lower-cased text is no longer than the input, has no whitespace at
      either end and no upper-case ASCII letter. */
  lemma NormalisedEnd(x: string)
    ensures var t := Lower(Strip(x));
            && |t| <= |x|
            && (t == [] || (!IsSpace(t[0]) && !IsSpace(t[|t| - 1])))
            && forall i :: 0 <= i < |t| ==> !('A' <= t[i] <= 'Z')
  {
    LowerTrimmed(Strip(x));
  }

  /** Lower-casing keeps a text free of whitespace at its ends and leaves no upper-case
      ASCII letter. */
  lemma LowerTrimmed(s: string)
    requires s == [] || (!IsSpace(s[0]) && !IsSpace(s[|s| - 1]))
    ensures var t := Lower(s);
            && (t == [] || (!IsSpace(t[0]) && !IsSpace(t[|t| - 1])))
            && forall i :: 0 <= i < |t| ==> !('A' <= t[i] <= 'Z')
  {
    var t := Lower(s);
    if s != [] {
      LowerKeepsSpace(s[0]);
      LowerKeepsSpace(s[|s| - 1]);
    }
    forall i | 0 <= i < |t|
      ensures !('A' <= t[i] <= 'Z')
    {
      LowerNotUpper(s[i]);
    }
  }

  lemma LowerKeepsSpace(c: char)
    ensures IsSpace(LowerChar(c)) <==> IsSpace(c)
  {
  }

  lemma LowerNotUpper(c: char)
    ensures !('A' <= LowerChar(c) <= 'Z')
  {
  }

  // ---------------------------------------------------------------------------
  // Registration checks
  // ---------------------------------------------------------------------------

  /** The JSON body of a registration; `None` is an absent key. */
  datatype RegisterData = RegisterData(email: Option<string>, username: Option<string>,
                                       password: Option<string>, fullName: Option<string>)

  /** The fields as `register_user` reads them. */
  datatype Registration = Registration(email: string, username: string, password: string, fullName: string)

  /** Ends in something other than whitespace, as a stripped string does. */
  predicate Trimmed(s: string) { s == [] || !IsSpace(s[|s| - 1]) }

  /** Email stripped and lower-cased, username and full name stripped, password as
      given; an absent field is empty. */
  function Normalise(data: RegisterData): (r: Registration)
    ensures Trimmed(r.email) && Trimmed(r.username)
  {
    NormalisedEnd(data.email.GetOr(""));
    Registration(Lower(Strip(data.email.GetOr(""))), Strip(data.username.GetOr("")),
                 data.password.GetOr(""), Strip(data.fullName.GetOr("")))
  }

  /** The checks of `register_user` that can reject a registration, in the order they run. */
  datatype RegisterFailure = MissingField | BadEmail | UsernameLength | UsernameChars | ShortPassword

  /** The validation chain of `register_user`: the first check that fails, if any. */
  function RegistrationCheck(r: Registration): (failure: Option<RegisterFailure>)
    ensures failure == Some(MissingField) <==> r.email == [] || r.username == [] || r.password == [] || r.fullName == []
    ensures failure.None? ==> 3 <= |r.username| <= 20 && |r.password| >= 6 && r.fullName != [] && ValidateEmail(r.email)
  {
    if r.email == [] || r.username == [] || r.password == [] || r.fullName == [] then Some(MissingField)
    else if !ValidateEmail(r.email) then Some(BadEmail)
    else if |r.username| < 3 || |r.username| > 20 then Some(UsernameLength)
    else if !MatchesToEnd(r.username, UsernameWord) then Some(UsernameChars)
    else if !ValidatePassword(r.password).0 then Some(ShortPassword)
    else None
  }

  /** Each check fails exactly when the earlier ones pass and its own rule is broken;
      on normalised fields the `$` quirk plays no part. */
  lemma RegistrationFailures(r: Registration)
    requires Trimmed(r.email) && Trimmed(r.username)
    ensures var present := r.email != [] && r.username != [] && r.password != [] && r.fullName != [];
            var lengthOk := 3 <= |r.username| <= 20;
            var charsOk := AllIn(r.username, 0, |r.username|, WordChars);
            && (RegistrationCheck(r) == Some(MissingField) <==> !present)
            && (RegistrationCheck(r) == Some(BadEmail) <==> present && !EmailShape(r.email))
            && (RegistrationCheck(r) == Some(UsernameLength) <==> present && EmailShape(r.email) && !lengthOk)
            && (RegistrationCheck(r) == Some(UsernameChars) <==>
                  present && EmailShape(r.email) && lengthOk && !charsOk)
            && (RegistrationCheck(r) == Some(ShortPassword) <==>
                  present && EmailShape(r.email) && lengthOk && charsOk && |r.password| < 6)
  {
    NoFinalNewline(r.email, EmailAddress);
    NoFinalNewline(r.username, UsernameWord);
  }

  /** A registration passes the checks exactly when every normalised field is present,
      the email matches the pattern, the username has 3 to 20 letters, digits or
      underscores, and the password at least 6 characters. */
  lemma RegistrationAccepted(r: Registration)
    requires Trimmed(r.email) && Trimmed(r.username)
    ensures RegistrationCheck(r).None? <==>
              && r.email != [] && r.username != [] && r.fullName != []
              && EmailShape(r.email)
              && 3 <= |r.username| <= 20 && AllIn(r.username, 0, |r.username|, WordChars)
              && |r.password| >= 6
  {
    NoFinalNewline(r.email, EmailAddress);
    NoFinalNewline(r.username, UsernameWord);
  }

  // ---------------------------------------------------------------------------
  // The users collection
  // ---------------------------------------------------------------------------

  /** A bcrypt hash; where it comes from is not modelled. */
  datatype PasswordHash = PasswordHash(digest: string)

  /** The kanjiapi.dev record saved with a kanji, carried as it is. */
  datatype KanjiData = KanjiData(json: string)

  /** One value of `kanji_collection`, keyed by `char`; `addedAt` is a UTC timestamp. */
  datatype KanjiEntry = KanjiEntry(kanji: string, data: Option<KanjiData>, addedAt: int)

  /** One item of the list the client asks to save. */
  datatype KanjiInput = KanjiInput(kanji: string, data: Option<KanjiData>)

  datatype User = User(
    id: nat,
    email: string,
    username: string,
    password: Option<PasswordHash>,
    fullName: string,
    googleId: Option<string>,
    kanjiCollection: Option<seq<KanjiEntry>>)

  /** The messages the replies carry; `MessageText` gives each one's wording. */
  datatype Message =
    | DatabaseConnectionFailed
    | Rejected(failure: RegisterFailure)
    | PasswordValid
    | UserExists
    | UserRegistered
    | CredentialsRequired
    | InvalidCredentials
    | InternalServerError
    | LoginSuccessful
    | UserNotFound
    | KanjiSaved(newCount: nat)
    | GoogleEmailMissing
    /** A reply whose body is data (a collection, a user and token) rather than a message. */
    | NoMessage

  function MessageText(m: Message): string
  {
    match m
    case DatabaseConnectionFailed => "Database connection failed"
    case Rejected(MissingField) => "All fields are required"
    case Rejected(BadEmail) => "Invalid email format"
    case Rejected(UsernameLength) => "Username must be between 3 and 20 characters"
    case Rejected(UsernameChars) => "Username can only contain letters, numbers, and underscores"
    case Rejected(ShortPassword) => "Password must be at least 6 characters long"
    case PasswordValid => "Password is valid"
    case UserExists => "User with this email or username already exists"
    case UserRegistered => "User registered successfully"
    case CredentialsRequired => "Email/username and password are required"
    case InvalidCredentials => "Invalid credentials"
    case InternalServerError => "Internal server error"
    case LoginSuccessful => "Login successful"
    case UserNotFound => "User not found"
    case KanjiSaved(n) =>
      if n > 0 then "Successfully saved " + Decimal(n) + " new kanji to collection"
      else "Kanji successfully added to collection"
    case GoogleEmailMissing => "Google profile did not include an email"
    case NoMessage => ""
  }

  /** A reply's HTTP status and message. */
  datatype Reply = Reply(status: nat, message: Message)

  /** `find_one(query)`: the first document in natural order that the query matches. */
  function FirstMatch(users: seq<User>, matches: User -> bool): (r: Option<nat>)
    ensures r.Some? ==> r.value < |users| && matches(users[r.value])
                        && forall j :: 0 <= j < r.value ==> !matches(users[j])
    ensures r.None? ==> forall j :: 0 <= j < |users| ==> !matches(users[j])
  {
    if users == [] then None
    else if matches(users[0]) then Some(0)
    else
      var r := FirstMatch(users[1..], matches);
      if r.None? then None else Some(r.value + 1)
  }

  /** Two documents never share an id, an email or a username: the unique indexes. */
  predicate UniqueUsers(users: seq<User>)
  {
    forall i, j :: 0 <= i < j < |users| ==>
      users[i].id != users[j].id && users[i].email != users[j].email && users[i].username != users[j].username
  }

  /** Inserting a document with a fresh id, email and username keeps the indexes unique. */
  lemma AppendUnique(users: seq<User>, user: User)
    requires UniqueUsers(users)
    requires forall i :: 0 <= i < |users| ==>
               users[i].id != user.id && users[i].email != user.email && users[i].username != user.username
    ensures UniqueUsers(users + [user])
  {
  }

  /** The lookup key of `login_user`: the identifier stripped and lower-cased. */
  function LoginKey(identifier: Option<string>): (key: string)
    ensures |key| <= |identifier.GetOr("")|
    ensures key == [] || (!IsSpace(key[0]) && !IsSpace(key[|key| - 1]))
    ensures forall i :: 0 <= i < |key| ==> !('A' <= key[i] <= 'Z')
  {
    NormalisedEnd(identifier.GetOr(""));
    Lower(Strip(identifier.GetOr("")))
  }

  /** The `$or` query of `login_user`: email or username equal to the key. */
  function FindUser(users: seq<User>, key: string): (found: Option<nat>)
    ensures found.Some? ==> found.value < |users| && (users[found.value].email == key || users[found.value].username == key)
    ensures found.Some? ==> forall j :: 0 <= j < found.value ==> users[j].email != key && users[j].username != key
    ensures found.None? <==> forall j :: 0 <= j < |users| ==> users[j].email != key && users[j].username != key
  {
    FirstMatch(users, (u: User) => u.email == key || u.username == key)
  }

  /** A user whose username has an upper-case letter is never found by that username:
      the key is lower-cased and compared exactly. */
  lemma UppercaseUsernameNotFound(users: seq<User>, i: nat, k: nat)
    requires i < |users| && k < |users[i].username| && 'A' <= users[i].username[k] <= 'Z'
    requires users[i].email != LoginKey(Some(users[i].username))
    ensures FindUser(users, LoginKey(Some(users[i].username))) != Some(i)
  {
    var name := users[i].username;
    var key := LoginKey(Some(name));
    assert name != key by {
      if k < |key| {
        assert key[k] == LowerChar(Strip(name)[k]);
      }
    }
  }

  /** The lookup as evidently intended: the email compared in lower case, the username
      as it was registered. */
  function FindUserCorrected(users: seq<User>, identifier: string): Option<nat>
  {
    var key := Strip(identifier);
    FirstMatch(users, (u: User) => u.email == Lower(key) || u.username == key)
  }

  /** With the corrected lookup every user is found by their own username. */
  lemma FoundByOwnUsername(users: seq<User>, i: nat)
    requires UniqueUsers(users) && i < |users|
    requires Strip(users[i].username) == users[i].username
    requires forall j :: 0 <= j < |users| ==> users[j].email != Lower(users[i].username)
    ensures FindUserCorrected(users, users[i].username) == Some(i)
  {
  }

  /** The largest id plus one. */
  function NextFreeId(users: seq<User>): (n: nat)
    ensures forall i :: 0 <= i < |users| ==> users[i].id < n
  {
    if users == [] then 0
    else
      var m := NextFreeId(users[..|users| - 1]);
      var last := users[|users| - 1].id;
      assert forall i :: 0 <= i < |users| - 1 ==> users[..|users| - 1][i] == users[i];
      if last < m then m else last + 1
  }

  // ---------------------------------------------------------------------------
  // Kanji collections
  // ---------------------------------------------------------------------------

  function Keys(entries: seq<KanjiEntry>): (r: seq<string>)
    ensures |r| == |entries| && forall i :: 0 <= i < |entries| ==> r[i] == entries[i].kanji
  {
    seq(|entries|, i requires 0 <= i < |entries| => entries[i].kanji)
  }

  predicate DistinctKeys(entries: seq<KanjiEntry>)
  {
    forall i, j :: 0 <= i < j < |entries| ==> entries[i].kanji != entries[j].kanji
  }

  /** The collection after the loop of `save_kanji_to_collection`: each item whose char
      is not yet a key is added, stamped with the clock reading of its turn. */
  function Merge(existing: seq<KanjiEntry>, items: seq<KanjiInput>, clock: nat -> int): (merged: seq<KanjiEntry>)
    ensures |existing| <= |merged| <= |existing| + |items|
  {
    if items == [] then existing
    else
      var merged := Merge(existing, items[..|items| - 1], clock);
      var item := items[|items| - 1];
      if item.kanji in Keys(merged) then merged
      else merged + [KanjiEntry(item.kanji, item.data, clock(|items| - 1))]
  }

  /** Existing entries stay as they are, in front. */
  lemma {:induction false} MergeKeepsExisting(existing: seq<KanjiEntry>, items: seq<KanjiInput>, clock: nat -> int)
    ensures |Merge(existing, items, clock)| >= |existing|
    ensures Merge(existing, items, clock)[..|existing|] == existing
  {
    if items != [] {
      MergeKeepsExisting(existing, items[..|items| - 1], clock);
    }
  }

  /** The keys afterwards are the old keys and the chars of the items. */
  lemma {:induction false} MergeKeys(existing: seq<KanjiEntry>, items: seq<KanjiInput>, clock: nat -> int)
    ensures forall c :: c in Keys(Merge(existing, items, clock)) <==>
                          c in Keys(existing) || exists i :: 0 <= i < |items| && items[i].kanji == c
  {
    if items != [] {
      var init := items[..|items| - 1];
      MergeKeys(existing, init, clock);
      assert forall i :: 0 <= i < |init| ==> init[i] == items[i];
      var merged := Merge(existing, init, clock);
      var item := items[|items| - 1];
      if item.kanji !in Keys(merged) {
        var added := KanjiEntry(item.kanji, item.data, clock(|items| - 1));
        assert Keys(merged + [added]) == Keys(merged) + [item.kanji];
      }
    }
  }

  /** Keys stay distinct. */
  lemma {:induction false} MergeDistinct(existing: seq<KanjiEntry>, items: seq<KanjiInput>, clock: nat -> int)
    requires DistinctKeys(existing)
    ensures DistinctKeys(Merge(existing, items, clock))
  {
    if items != [] {
      MergeDistinct(existing, items[..|items| - 1], clock);
      var merged := Merge(existing, items[..|items| - 1], clock);
      assert forall i :: 0 <= i < |merged| ==> Keys(merged)[i] == merged[i].kanji;
    }
  }

  /** Every added entry comes from the first item with its char, which was not a key. */
  lemma {:induction false} MergeFirstWins(existing: seq<KanjiEntry>, items: seq<KanjiInput>, clock: nat -> int, m: nat)
    requires |existing| <= m < |Merge(existing, items, clock)|
    ensures exists i :: 0 <= i < |items|
              && Merge(existing, items, clock)[m] == KanjiEntry(items[i].kanji, items[i].data, clock(i))
              && items[i].kanji !in Keys(existing)
              && forall j :: 0 <= j < i ==> items[j].kanji != items[i].kanji
  {
    var init := items[..|items| - 1];
    var merged := Merge(existing, init, clock);
    var item := items[|items| - 1];
    assert forall i :: 0 <= i < |init| ==> init[i] == items[i];
    if m < |merged| {
      MergeFirstWins(existing, init, clock, m);
      var i :| 0 <= i < |init| && merged[m] == KanjiEntry(init[i].kanji, init[i].data, clock(i))
               && init[i].kanji !in Keys(existing) && forall j :: 0 <= j < i ==> init[j].kanji != init[i].kanji;
      MergeKeepsExisting(existing, init, clock);
      assert Merge(existing, items, clock)[m] == merged[m];
    } else {
      MergeKeys(existing, init, clock);
      var n := |items| - 1;
      assert Merge(existing, items, clock)[m] == KanjiEntry(items[n].kanji, items[n].data, clock(n));
      assert forall j :: 0 <= j < n ==> items[j].kanji != items[n].kanji by {
        forall j | 0 <= j < n
          ensures items[j].kanji != items[n].kanji
        {
          assert init[j] == items[j];
        }
      }
    }
  }

  /** How many items have a char that is not a key of `entries`, repeats included. */
  function CountAbsent(items: seq<KanjiInput>, entries: seq<KanjiEntry>): (n: nat)
    ensures n <= |items|
  {
    if items == [] then 0
    else CountAbsent(items[..|items| - 1], entries) + (if items[|items| - 1].kanji in Keys(entries) then 0 else 1)
  }

  /** `new_count` as written: `existing_kanji` is the stored dict itself when the field
      exists, so the comprehension runs against the merged collection. */
  function NewCountAsWritten(stored: Option<seq<KanjiEntry>>, merged: seq<KanjiEntry>, items: seq<KanjiInput>): nat
  {
    CountAbsent(items, if stored.Some? then merged else [])
  }

  /** `new_count` as evidently intended: against the collection before the merge. */
  function NewKanjiCount(stored: Option<seq<KanjiEntry>>, items: seq<KanjiInput>): nat
  {
    CountAbsent(items, stored.GetOr([]))
  }

  lemma {:induction false} CountAbsentNone(items: seq<KanjiInput>, entries: seq<KanjiEntry>)
    requires forall i :: 0 <= i < |items| ==> items[i].kanji in Keys(entries)
    ensures CountAbsent(items, entries) == 0
  {
    if items != [] {
      CountAbsentNone(items[..|items| - 1], entries);
    }
  }

  /** As written, a user who already had a collection is always told nothing was new. */
  lemma SavedCountAsWritten(stored: seq<KanjiEntry>, items: seq<KanjiInput>, clock: nat -> int)
    ensures NewCountAsWritten(Some(stored), Merge(stored, items, clock), items) == 0
  {
    MergeKeys(stored, items, clock);
    CountAbsentNone(items, Merge(stored, items, clock));
  }

  /** The intended count is positive exactly when the collection grew, and never below
      the number of entries added. */
  lemma {:induction false} NewKanjiCountCorrect(stored: seq<KanjiEntry>, items: seq<KanjiInput>, clock: nat -> int)
    ensures NewKanjiCount(Some(stored), items) >= |Merge(stored, items, clock)| - |stored|
    ensures NewKanjiCount(Some(stored), items) > 0 <==> |Merge(stored, items, clock)| > |stored|
  {
    if items != [] {
      var init := items[..|items| - 1];
      NewKanjiCountCorrect(stored, init, clock);
      MergeKeys(stored, init, clock);
      MergeKeepsExisting(stored, init, clock);
      var item := items[|items| - 1];
      if item.kanji !in Keys(stored) {
        var merged := Merge(stored, init, clock);
        if item.kanji in Keys(merged) {
          var i :| 0 <= i < |init| && init[i].kanji == item.kanji;
          assert CountAbsent(init, stored) > 0 by {
            CountAbsentPositive(init, stored, i);
          }
        }
      }
    }
  }

  lemma {:induction false} CountAbsentPositive(items: seq<KanjiInput>, entries: seq<KanjiEntry>, i: nat)
    requires i < |items| && items[i].kanji !in Keys(entries)
    ensures CountAbsent(items, entries) > 0
  {
    if i < |items| - 1 {
      CountAbsentPositive(items[..|items| - 1], entries, i);
    }
  }

  /** The sort key of `get_user_kanji_collection`: newest first. */
  function NewestFirst(e: KanjiEntry): int { -e.addedAt }

  /** The first candidate username is the email's local part, then it with 1, 2, ... */
  function Candidate(base: string, k: nat): string
  {
    if k == 0 then base else base + Decimal(k)
  }

  lemma CandidateInjective(base: string, a: nat, b: nat)
    ensures Candidate(base, a) == Candidate(base, b) ==> a == b
  {
    if a > 0 && b > 0 && Candidate(base, a) == Candidate(base, b) {
      assert Decimal(a) == Candidate(base, a)[|base|..];
      assert Decimal(b) == Candidate(base, b)[|base|..];
      DecimalInjective(a, b);
    }
  }

  predicate Taken(users: seq<User>, username: string)
  {
    exists i :: 0 <= i < |users| && users[i].username == username
  }

  /** `username` is the first candidate for `base` that no stored user has. */
  ghost predicate FirstFree(users: seq<User>, base: string, username: string)
  {
    exists k: nat :: username == Candidate(base, k) && !Taken(users, username)
                     && forall j :: 0 <= j < k ==> Taken(users, Candidate(base, j))
  }

  /** The first `n` candidates. */
  ghost function Candidates(base: string, n: nat): set<string>
  {
    if n == 0 then {} else Candidates(base, n - 1) + {Candidate(base, n - 1)}
  }

  lemma {:induction false} CandidateIsNew(base: string, n: nat)
    ensures Candidate(base, n) !in Candidates(base, n)
    ensures |Candidates(base, n)| == n
  {
    if n > 0 {
      CandidateIsNew(base, n - 1);
      CandidateInjective(base, n - 1, n);
      CandidateOutside(base, n - 1, n);
    }
  }

  /** No candidate at or beyond `m` is among the first `m`. */
  lemma {:induction false} CandidateOutside(base: string, m: nat, n: nat)
    requires m <= n
    ensures Candidate(base, n) !in Candidates(base, m)
  {
    if m > 0 {
      CandidateInjective(base, m - 1, n);
      CandidateOutside(base, m - 1, n);
    }
  }

  function Usernames(users: seq<User>): (r: set<string>)
    ensures forall name :: name in r <==> Taken(users, name)
  {
    set i | 0 <= i < |users| :: users[i].username
  }

  /** The username loop of `handle_google_oauth`: tries the candidates in order until
      one is free. It ends because each taken candidate is a distinct stored username. */
  method FreeUsername(users: seq<User>, base: string) returns (username: string)
    ensures !Taken(users, username)
    ensures FirstFree(users, base, username)
  {
    username := base;
    var counter := 1;
    ghost var taken := Usernames(users);
    while FirstMatch(users, (u: User) => u.username == username).Some?
      invariant counter >= 1 && username == Candidate(base, counter - 1)
      invariant Candidates(base, counter - 1) <= taken
      invariant counter - 1 <= |taken|
      decreases |taken| - (counter - 1)
    {
      ghost var hit := FirstMatch(users, (u: User) => u.username == username).value;
      assert Taken(users, username) by {
        assert users[hit].username == username;
      }
      assert counter <= |taken| by {
        CandidateIsNew(base, counter);
        SubsetSize(Candidates(base, counter), taken);
      }
      username := base + Decimal(counter);
      counter := counter + 1;
    }
    assert FirstFree(users, base, username) by {
      CandidatesMembers(base, counter - 1);
      assert Candidate(base, counter - 1) == username;
    }
  }

  lemma {:induction false} CandidatesMembers(base: string, n: nat)
    ensures forall j :: 0 <= j < n ==> Candidate(base, j) in Candidates(base, n)
  {
    if n > 0 {
      CandidatesMembers(base, n - 1);
    }
  }

  lemma SubsetSize(a: set<string>, b: set<string>)
    requires a <= b
    ensures |a| <= |b|
  {
    assert b == a + (b - a);
  }

  /** The parts of a Google profile the sign-in reads; `None` is an absent key. */
  datatype GoogleProfile = GoogleProfile(email: Option<string>, name: Option<string>, id: Option<string>)

  // ---------------------------------------------------------------------------
  // The manager
  // ---------------------------------------------------------------------------

  class AuthManager {
    /** `users_collection is not None`. */
    var connected: bool
    var users: seq<User>
    /** The id the next inserted document gets. */
    var nextId: nat

    predicate Valid()
      reads this
    {
      UniqueUsers(users) && forall i :: 0 <= i < |users| ==> users[i].id < nextId
    }

    /** `AuthManager(app)`: connects when the URI is set, is not 'DUMMY', and the server
        answers; the stored documents already obey the unique indexes. */
    constructor(mongodbUri: Option<string>, reachable: bool, stored: seq<User>)
      requires UniqueUsers(stored)
      ensures connected <==> mongodbUri.Some? && mongodbUri.value != [] && mongodbUri.value != "DUMMY" && reachable
      ensures users == stored && Valid()
    {
      connected := mongodbUri.Some? && mongodbUri.value != [] && mongodbUri.value != "DUMMY" && reachable;
      users := stored;
      nextId := NextFreeId(stored);
    }

    /** `insert_one`: stores the document under a fresh id. The caller has checked that
        no document has its email or username. */
    method InsertOne(user: User) returns (id: nat)
      requires Valid()
      requires forall i :: 0 <= i < |users| ==> users[i].email != user.email && users[i].username != user.username
      modifies this
      ensures Valid() && connected == old(connected)
      ensures id == old(nextId) && users == old(users) + [user.(id := id)]
    {
      id := nextId;
      AppendUnique(users, user.(id := id));
      users := users + [user.(id := id)];
      nextId := nextId + 1;
    }

    /** `register_user`: the checks in order, then the duplicate check, then the insert. */
    method RegisterUser(data: RegisterData, hashed: PasswordHash) returns (reply: Reply)
      requires Valid()
      modifies this
      ensures Valid() && connected == old(connected)
      ensures !connected ==> reply == Reply(500, DatabaseConnectionFailed)
      ensures connected && RegistrationCheck(Normalise(data)).Some? ==>
                reply == Reply(400, Rejected(RegistrationCheck(Normalise(data)).value))
      ensures connected && RegistrationCheck(Normalise(data)).None? ==>
                (reply.status == 409 <==>
                   exists i :: 0 <= i < |old(users)| &&
                     (old(users)[i].email == Normalise(data).email || old(users)[i].username == Normalise(data).username))
      ensures connected && RegistrationCheck(Normalise(data)).None? &&
              (forall i :: 0 <= i < |old(users)| ==>
                 old(users)[i].email != Normalise(data).email && old(users)[i].username != Normalise(data).username) ==>
                reply.status == 201
      ensures reply.status == 201 ==>
                && reply.message == UserRegistered
                && users == old(users) + [User(old(nextId), Normalise(data).email, Normalise(data).username, Some(hashed),
                                               Normalise(data).fullName, None, None)]
      ensures reply.status == 409 ==> reply.message == UserExists
      ensures reply.status != 201 ==> users == old(users)
    {
      if !connected {
        return Reply(500, DatabaseConnectionFailed);
      }
      var form := Normalise(data);
      var failure := RegistrationCheck(form);
      if failure.Some? {
        return Reply(400, Rejected(failure.value));
      }
      var email, username := form.email, form.username;
      var existing := FirstMatch(users, (u: User) => u.email == email || u.username == username);
      if existing.Some? {
        return Reply(409, UserExists);
      }
      var _ := InsertOne(User(0, email, username, Some(hashed), form.fullName, None, None));
      reply := Reply(201, UserRegistered);
    }

    /** `login_user`: a missing user and a wrong password get the same 401. A user
        without a password hash (created by Google sign-in) makes the hash check raise. */
    method LoginUser(identifier: Option<string>, password: Option<string>,
                     verify: (string, PasswordHash) -> bool) returns (reply: Reply, userId: Option<nat>)
      ensures !connected ==> reply == Reply(500, DatabaseConnectionFailed)
      ensures connected && (LoginKey(identifier) == [] || password.GetOr("") == []) ==>
                reply == Reply(400, CredentialsRequired)
      ensures connected && LoginKey(identifier) != [] && password.GetOr("") != [] ==>
                var found := FindUser(users, LoginKey(identifier));
                && (found.None? ==> reply == Reply(401, InvalidCredentials))
                && (found.Some? && users[found.value].password.None? ==> reply == Reply(500, InternalServerError))
                && (found.Some? && users[found.value].password.Some? ==>
                      if verify(password.value, users[found.value].password.value)
                      then reply == Reply(200, LoginSuccessful) && userId == Some(users[found.value].id)
                      else reply == Reply(401, InvalidCredentials))
      ensures reply.status == 200 <==> userId.Some?
    {
      userId := None;
      if !connected {
        return Reply(500, DatabaseConnectionFailed), None;
      }
      var key := LoginKey(identifier);
      var secret := password.GetOr("");
      if key == [] || secret == [] {
        return Reply(400, CredentialsRequired), None;
      }
      var found := FindUser(users, key);
      if found.None? {
        return Reply(401, InvalidCredentials), None;
      }
      var user := users[found.value];
      if user.password.None? {
        return Reply(500, InternalServerError), None;
      }
      if !verify(secret, user.password.value) {
        return Reply(401, InvalidCredentials), None;
      }
      reply, userId := Reply(200, LoginSuccessful), Some(user.id);
    }

    /** `save_kanji_to_collection`: merges the items into the user's collection and
        stores it; the reply counts new kanji as the source does. */
    method SaveKanjiToCollection(userId: nat, items: seq<KanjiInput>, clock: nat -> int)
      returns (reply: Reply, total: nat)
      requires Valid()
      modifies this
      ensures Valid() && connected == old(connected) && nextId == old(nextId)
      ensures !connected ==> reply == Reply(500, DatabaseConnectionFailed) && users == old(users)
      ensures connected && FirstMatch(old(users), (u: User) => u.id == userId).None? ==>
                reply == Reply(404, UserNotFound) && users == old(users)
      ensures connected && FirstMatch(old(users), (u: User) => u.id == userId).Some? ==>
                var i := FirstMatch(old(users), (u: User) => u.id == userId).value;
                var stored := old(users)[i].kanjiCollection;
                var merged := Merge(stored.GetOr([]), items, clock);
                && users == old(users)[i := old(users)[i].(kanjiCollection := Some(merged))]
                && total == |merged|
                && reply == Reply(200, KanjiSaved(NewCountAsWritten(stored, merged, items)))
    {
      if !connected {
        return Reply(500, DatabaseConnectionFailed), 0;
      }
      var found := FirstMatch(users, (u: User) => u.id == userId);
      if found.None? {
        return Reply(404, UserNotFound), 0;
      }
      var user := users[found.value];
      var existing := user.kanjiCollection.GetOr([]);
      var merged := existing;
      for k := 0 to |items|
        invariant merged == Merge(existing, items[..k], clock)
      {
        assert items[..k + 1][..k] == items[..k];
        var item := items[k];
        if item.kanji !in Keys(merged) {
          merged := merged + [KanjiEntry(item.kanji, item.data, clock(k))];
        }
      }
      assert items[..|items|] == items;
      var newCount := NewCountAsWritten(user.kanjiCollection, merged, items);
      users := users[found.value := user.(kanjiCollection := Some(merged))];
      reply, total := Reply(200, KanjiSaved(newCount)), |merged|;
    }

    /** `get_user_kanji_collection`: the entries in stored order, then sorted newest first;
        the sort is stable. */
    method GetUserKanjiCollection(userId: nat) returns (reply: Reply, kanji: seq<KanjiEntry>, totalCount: nat)
      ensures !connected ==> reply == Reply(500, DatabaseConnectionFailed) && kanji == []
      ensures connected && FirstMatch(users, (u: User) => u.id == userId).None? ==>
                reply == Reply(404, UserNotFound) && kanji == []
      ensures connected && FirstMatch(users, (u: User) => u.id == userId).Some? ==>
                var collection := users[FirstMatch(users, (u: User) => u.id == userId).value].kanjiCollection.GetOr([]);
                && reply.status == 200
                && multiset(kanji) == multiset(collection)
                && totalCount == |kanji| == |collection|
                && (forall i, j :: 0 <= i < j < |kanji| ==> kanji[i].addedAt >= kanji[j].addedAt)
                && (forall t :: KeyFilter(kanji, NewestFirst, t) == KeyFilter(collection, NewestFirst, t))
    {
      if !connected {
        return Reply(500, DatabaseConnectionFailed), [], 0;
      }
      var found := FirstMatch(users, (u: User) => u.id == userId);
      if found.None? {
        return Reply(404, UserNotFound), [], 0;
      }
      var collection := users[found.value].kanjiCollection.GetOr([]);
      var kanjiList: seq<KanjiEntry> := [];
      for k := 0 to |collection|
        invariant kanjiList == collection[..k]
      {
        var entry := collection[k];
        kanjiList := kanjiList + [KanjiEntry(entry.kanji, entry.data, entry.addedAt)];
      }
      assert collection[..|collection|] == collection;
      kanji := SortBy(kanjiList, NewestFirst);
      SortByCorrect(kanjiList, NewestFirst);
      forall t ensures KeyFilter(kanji, NewestFirst, t) == KeyFilter(collection, NewestFirst, t) {
        SortByStable(kanjiList, NewestFirst, t);
      }
      reply, totalCount := Reply(200, NoMessage), |kanji|;
    }

    /** `handle_google_oauth`: finds the user by email, or creates one with the first free
        username among the email's local part and that part followed by 1, 2, ... */
    method HandleGoogleOAuth(profile: GoogleProfile) returns (reply: Reply, userId: Option<nat>)
      requires Valid()
      modifies this
      ensures Valid() && connected == old(connected)
      ensures !connected ==> reply == Reply(500, DatabaseConnectionFailed) && users == old(users)
      ensures connected && LoginKey(profile.email) == [] ==>
                reply == Reply(400, GoogleEmailMissing) && users == old(users)
      ensures connected && LoginKey(profile.email) != [] ==>
                var email := LoginKey(profile.email);
                var found := FirstMatch(old(users), (u: User) => u.email == email);
                && reply.status == 200
                && (found.Some? ==> users == old(users) && userId == Some(old(users)[found.value].id))
                && (found.None? ==>
                      && userId == Some(old(nextId))
                      && |users| == |old(users)| + 1
                      && users == old(users) + [User(old(nextId), email, users[|old(users)|].username, None,
                                                     Strip(profile.name.GetOr("")), profile.id, None)]
                      && FirstFree(old(users), Split(email, '@')[0], users[|old(users)|].username))
    {
      if !connected {
        return Reply(500, DatabaseConnectionFailed), None;
      }
      var email := LoginKey(profile.email);
      var fullName := Strip(profile.name.GetOr(""));
      if email == [] {
        return Reply(400, GoogleEmailMissing), None;
      }
      var found := FirstMatch(users, (u: User) => u.email == email);
      if found.Some? {
        return Reply(200, NoMessage), Some(users[found.value].id);
      }
      var base := Split(email, '@')[0];
      var username := FreeUsername(users, base);
      var id := InsertOne(User(0, email, username, None, fullName, profile.id, None));
      reply, userId := Reply(200, NoMessage), Some(id);
    }
  }
}
