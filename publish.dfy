/**
 * The credential check of `post_tweet` / `post_tweet_with_image`, which every
 * script repeats, and the outcome of one run. The Tweepy upload and
 * `create_tweet` calls are the publisher, outside the model: a run's Posted
 * outcome is the one request handed to it.
 */
module Publish {
  import opened Wrappers
  import opened Failures
  import opened Seqs
  import opened Chart

  /** The environment variables the scripts read, in the order they are checked. */
  const CredentialNames: seq<string> := ["API_KEY", "API_KEY_SECRET", "ACCESS_TOKEN", "ACCESS_TOKEN_SECRET"]

  /** `os.getenv(name)` is truthy: the variable is set and not empty. */
  predicate Present(env: map<string, string>, name: string)
  {
    name in env && env[name] != ""
  }

  /** The names among `names` whose variable is unset or empty, in the order of `names`. */
  function Absent(names: seq<string>, env: map<string, string>): seq<string>
  {
    Filter(names, (n: string) => !Present(env, n))
  }

  /**
   * The `missing` loop: exactly the unset or empty credentials, each once, in
   * the fixed order API_KEY, API_KEY_SECRET, ACCESS_TOKEN, ACCESS_TOKEN_SECRET.
   */
  method ListMissing(env: map<string, string>) returns (missing: seq<string>)
    ensures missing == Absent(CredentialNames, env)
  {
    missing := [];
    var i := 0;
    while i < |CredentialNames|
      invariant 0 <= i <= |CredentialNames|
      invariant missing == Absent(CredentialNames[..i], env)
    {
      var name := CredentialNames[i];
      assert CredentialNames[..i + 1] == CredentialNames[..i] + [name];
      AbsentSnoc(CredentialNames[..i], name, env);
      if !Present(env, name) {
        missing := missing + [name];
      }
      i := i + 1;
    }
    assert CredentialNames[..i] == CredentialNames;
  }

  /** Every credential is set: the missing list is empty (AbsentExactly: all four variables are set and non-empty). */
  predicate CredentialsSet(env: map<string, string>)
  {
    Absent(CredentialNames, env) == []
  }

  /** One credential's contribution to the list: its name when unset or empty. */
  function IfMissing(env: map<string, string>, name: string): seq<string>
  {
    if Present(env, name) then [] else [name]
  }

  /** The list, spelled out per variable: the four checks in their fixed order. */
  lemma {:induction false} AbsentInOrder(env: map<string, string>)
    ensures Absent(CredentialNames, env)
         == IfMissing(env, "API_KEY") + IfMissing(env, "API_KEY_SECRET")
          + IfMissing(env, "ACCESS_TOKEN") + IfMissing(env, "ACCESS_TOKEN_SECRET")
  {
    var s1: seq<string> := ["API_KEY"];
    var s2 := s1 + ["API_KEY_SECRET"];
    var s3 := s2 + ["ACCESS_TOKEN"];
    assert s3 + ["ACCESS_TOKEN_SECRET"] == CredentialNames;
    AbsentSnoc([], "API_KEY", env);
    assert [] + ["API_KEY"] == s1;
    AbsentSnoc(s1, "API_KEY_SECRET", env);
    AbsentSnoc(s2, "ACCESS_TOKEN", env);
    AbsentSnoc(s3, "ACCESS_TOKEN_SECRET", env);
  }

  /** Checking one more variable appends at most its own name. */
  lemma AbsentSnoc(names: seq<string>, name: string, env: map<string, string>)
    ensures Absent(names + [name], env) == Absent(names, env) + IfMissing(env, name)
  {
    assert (names + [name])[..|names|] == names;
  }

  /** A name is listed exactly when it is one of the four and its variable is unset or empty; the list is empty exactly when all four are set. */
  lemma AbsentExactly(env: map<string, string>, name: string)
    ensures name in Absent(CredentialNames, env) <==> name in CredentialNames && !Present(env, name)
    ensures CredentialsSet(env) <==> forall n :: n in CredentialNames ==> Present(env, n)
    ensures Subsequence(Absent(CredentialNames, env), CredentialNames)
  {
    var missing := Absent(CredentialNames, env);
    if missing != [] {
      assert missing[0] in missing;
    }
  }

  /** The one request a run hands to the publisher: the text, and the chart when the script attaches one. */
  datatype Tweet = Tweet(text: string, chart: Option<ChartRequest>)

  /** Why a run ended without posting. */
  datatype Reason =
    | InsufficientData        // fewer than two samples in the hourly window
    | BelowThreshold(pct: real)  // the hourly move was under 10% either way
    | NoPerformanceData       // no ticker of a digest had two valid closes
    | Failed(error: Error)    // an exception, caught and printed by `main`

  /** How one run ends: without a post, or with exactly one post request. */
  datatype Run = NoPost(reason: Reason) | Posted(tweet: Tweet)

  /** What posting does before any network step: refuse when a credential is missing. */
  function Post(text: string, chart: Option<ChartRequest>, env: map<string, string>): (r: Result<Tweet, Error>)
    ensures r.Failure? <==> !CredentialsSet(env)
    ensures r.Failure? ==> r.error == MissingCredentials(Absent(CredentialNames, env))
    ensures r.Success? ==> r.value == Tweet(text, chart)
  {
    var missing := Absent(CredentialNames, env);
    if missing != [] then
      Failure(MissingCredentials(missing))
    else
      Success(Tweet(text, chart))
  }

  /** `post_tweet` / `post_tweet_with_image` up to the network calls: the loop, then the raise or the request. */
  method PostTweet(text: string, chart: Option<ChartRequest>, env: map<string, string>)
    returns (r: Result<Tweet, Error>)
    ensures r == Post(text, chart, env)
  {
    var missing := ListMissing(env);
    if missing != [] {
      return Failure(MissingCredentials(missing));
    }
    return Success(Tweet(text, chart));
  }
}
