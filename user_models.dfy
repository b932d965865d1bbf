/** The user schema: the `User` model's field constraints and the `Subscribe` join
    table (a follower and the author followed), as predicates over table contents. */
module UserModels {
  import opened Tables
  import opened Text

  type UserId = nat

  datatype User = User(email: string, username: string, firstName: string, lastName: string)

  /** One row of the `Subscribe` table: `user` follows `author`. */
  datatype Subscription = Subscription(user: UserId, author: UserId)

  const UsernameMaxLength: nat := 150
  const PersonalNameMaxLength: nat := 150

  /** One character of the username class `[\w.@+-]`. */
  predicate IsUsernameChar(c: char) {
    IsWordChar(c) || c == '.' || c == '@' || c == '+' || c == '-'
  }

  /** `^[\w.@+-]+\Z`: at least one character, every one from the username class. */
  predicate UsernameChars(s: string) {
    |s| > 0 && forall i :: 0 <= i < |s| ==> IsUsernameChar(s[i])
  }

  /** The username validator as written, `^[\w.@+-]+$` applied with `re.search`:
      `$` also matches just before a newline that ends the string. */
  predicate UsernameRegexAsWritten(s: string) {
    UsernameChars(s) || (|s| >= 2 && s[|s| - 1] == '\n' && UsernameChars(s[..|s| - 1]))
  }

  /** The as-written validator accepts exactly the intended usernames and those
      usernames followed by one newline. */
  lemma UsernameRegexAdmitsNewline(s: string)
    ensures UsernameRegexAsWritten(s) <==>
            UsernameChars(s) || (exists w :: UsernameChars(w) && s == w + "\n")
  {
    if |s| >= 2 && s[|s| - 1] == '\n' && UsernameChars(s[..|s| - 1]) {
      assert s == s[..|s| - 1] + "\n";
    }
    if w :| UsernameChars(w) && s == w + "\n" {
      assert s[..|s| - 1] == w;
    }
  }

  /** A username the as-written validator lets through although it holds a character
      outside the username class. */
  lemma UsernameNewlineCounterexample()
    ensures UsernameRegexAsWritten("bob\n") && !UsernameChars("bob\n")
  {
    assert "bob\n"[..3] == "bob";
    assert !IsUsernameChar("bob\n"[3]);
  }

  /** A valid username: the intended `^[\w.@+-]+\Z` and at most 150 characters. */
  predicate UsernameValid(s: string) {
    UsernameChars(s) && |s| <= UsernameMaxLength
  }

  /** A valid username holds no line break, no space and no other character outside
      `[\w.@+-]`, and is non-empty. */
  lemma UsernameValidCharacters(s: string)
    requires UsernameValid(s)
    ensures 0 < |s| <= 150
    ensures '\n' !in s && ' ' !in s && '/' !in s
  {
    forall i | 0 <= i < |s| ensures s[i] != '\n' && s[i] != ' ' && s[i] != '/' {
      assert IsUsernameChar(s[i]);
    }
  }

  /** The field constraints of one user row. */
  predicate UserValid(u: User) {
    UsernameValid(u.username)
    && |u.firstName| <= PersonalNameMaxLength
    && |u.lastName| <= PersonalNameMaxLength
  }

  /** The `User` table: every row valid, usernames unique, emails unique. */
  predicate UsersValid(users: map<UserId, User>) {
    && (forall id :: id in users ==> UserValid(users[id]))
    && (forall a, b :: a in users && b in users && a != b ==>
          users[a].username != users[b].username && users[a].email != users[b].email)
  }

  /** The `Subscribe` table: both ends are existing users and the constraint
      `unique_follow` holds (at most one row per follower and author). */
  predicate SubscriptionsValid(follows: seq<Subscription>, users: set<UserId>) {
    && NoDup(follows)
    && (forall f :: f in follows ==> f.user in users && f.author in users)
  }

  /** The rows that `on_delete=CASCADE` on both foreign keys keeps once only the users
      in `users` remain. */
  function Within(users: set<UserId>): Subscription -> bool {
    (f: Subscription) => f.user in users && f.author in users
  }

  /** Deleting a user removes every subscription in which they follow or are followed,
      keeps every other one, and leaves the table valid for the remaining users. */
  lemma DeleteUserSubscriptions(follows: seq<Subscription>, users: set<UserId>, id: UserId)
    requires SubscriptionsValid(follows, users)
    ensures var rest := Filter(follows, Within(users - {id}));
            && SubscriptionsValid(rest, users - {id})
            && (forall f :: f in rest <==> f in follows && f.user != id && f.author != id)
  {
    FilterNoDup(follows, Within(users - {id}));
  }
}
