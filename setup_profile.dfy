/** The profile-setup page: toggling an interest on and off, and the guard that
    decides whether the form sends its update request. */
module SetupProfile {
  import opened Records
  import Accounts
  import Query

  /** `interests.filter(i => i !== value)`. */
  function Without(s: seq<string>, value: string): (r: seq<string>)
    ensures value !in r
    ensures forall x :: x != value ==> multiset(r)[x] == multiset(s)[x]
    ensures forall x :: x in r <==> x in s && x != value
    ensures |r| <= |s|
  {
    if s == [] then []
    else
      assert s == [s[0]] + s[1..];
      (if s[0] == value then [] else [s[0]]) + Without(s[1..], value)
  }

  /** Filtering distributes over concatenation, so the kept items stay in order. */
  lemma {:induction false} WithoutConcat(a: seq<string>, b: seq<string>, value: string)
    ensures Without(a + b, value) == Without(a, value) + Without(b, value)
  {
    if a != [] {
      var head := if a[0] == value then [] else [a[0]];
      assert (a + b)[0] == a[0] && (a + b)[1..] == a[1..] + b;
      assert Without(a + b, value) == head + Without(a[1..] + b, value);
      WithoutConcat(a[1..], b, value);
      assert Without(a, value) == head + Without(a[1..], value);
      assert head + (Without(a[1..], value) + Without(b, value))
          == (head + Without(a[1..], value)) + Without(b, value);
    } else {
      assert a + b == b;
    }
  }

  /** Filtering out a value that is absent changes nothing. */
  lemma {:induction false} WithoutAbsent(s: seq<string>, value: string)
    requires value !in s
    ensures Without(s, value) == s
  {
    if s != [] {
      WithoutAbsent(s[1..], value);
    }
  }

  /** An interest is its own key: a list of interests is free of duplicates
      when it is `Unique` under this key. */
  function Itself(x: string): string
  {
    x
  }

  lemma {:induction false} WithoutDistinct(s: seq<string>, value: string)
    requires Query.Unique(s, Itself)
    ensures Query.Unique(Without(s, value), Itself)
  {
    if s != [] {
      WithoutDistinct(s[1..], value);
      var t := Without(s[1..], value);
      assert s[0] !in s[1..];
      assert multiset(t)[s[0]] == 0;
    }
  }

  /** `toggleInterest`: remove every occurrence of a present value, append an
      absent one. */
  function Toggle(interests: seq<string>, value: string): (r: seq<string>)
    ensures (value in r) <==> (value !in interests)
    ensures forall x :: x != value ==> (x in r <==> x in interests)
  {
    if value in interests then Without(interests, value) else interests + [value]
  }

  lemma ToggleRemovesAll(interests: seq<string>, value: string)
    requires value in interests
    ensures multiset(Toggle(interests, value))[value] == 0
    ensures forall x :: x != value ==> multiset(Toggle(interests, value))[x] == multiset(interests)[x]
  {
  }

  lemma ToggleAppends(interests: seq<string>, value: string)
    requires value !in interests
    ensures Toggle(interests, value) == interests + [value]
  {
  }

  /** Toggling an absent value twice gives back the original list. */
  lemma ToggleTwice(interests: seq<string>, value: string)
    requires value !in interests
    ensures Toggle(Toggle(interests, value), value) == interests
  {
    WithoutConcat(interests, [value], value);
    WithoutAbsent(interests, value);
  }

  /** A list without duplicates stays without duplicates. */
  lemma ToggleKeepsDistinct(interests: seq<string>, value: string)
    requires Query.Unique(interests, Itself)
    ensures Query.Unique(Toggle(interests, value), Itself)
  {
    if value in interests {
      WithoutDistinct(interests, value);
    }
  }

  /** The submit guard of `handleSubmit`: no request unless a major is chosen
      and at least one interest is selected; otherwise the PUT body. */
  function Submit(userId: Option<Id>, major: string, interests: seq<string>): (r: Option<Accounts.ProfileUpdate>)
    ensures r.None? <==> major == "" || interests == []
    ensures r.Some? ==> r.value.userId == userId && r.value.major == Some(major) && r.value.interests == Some(interests)
  {
    if major == "" || |interests| == 0 then None else Some(Accounts.ProfileUpdate(userId, Some(major), Some(interests)))
  }

  /** A request the page lets through leaves the matching user with a non-empty
      major and at least one interest. */
  lemma SubmitCompletesProfile(users: seq<User>, userId: Option<Id>, major: string, interests: seq<string>, i: nat)
    requires Submit(userId, major, interests).Some?
    requires Query.Unique(users, UserId)
    requires i < |users| && userId == Some(users[i].id)
    ensures var u := Accounts.UpdateProfile(users, Submit(userId, major, interests).value).records[i];
      u.major != "" && |u.interests| > 0
  {
    Accounts.UpdateProfileFields(users, Submit(userId, major, interests).value, i);
  }
}
