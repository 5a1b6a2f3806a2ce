/**
  The remover of clean.py: the loop in nuke that un-retweets or deletes each
  filtered row, the two helpers that swallow the API's errors, and the two
  loops of the command line that act on tweet ids given directly.

  The remote API is modelled by the class Api: every call is recorded, in
  order, in a trace, and its response (success or a TweepError) is chosen
  nondeterministically, so what is proved holds whatever the server answers.
*/
module Remover {
  import opened KeywordFilter

  /** The number of rows the timeline fetch asks for. */
  const Limit := 3200

  /** A remote call: destroy_status(id) or unretweet(id). */
  datatype Action = Destroy(id: TweetId) | Unretweet(id: TweetId)

  /** What the server answers to one call. */
  datatype Response = Ok | TweepError

  /** The remote API, seen as the calls made to it and the responses they got. */
  class Api {
    var trace: seq<Action>
    var responses: seq<Response>

    ghost predicate Valid()
      reads this
    {
      |responses| == |trace|
    }

    constructor ()
      ensures Valid() && trace == [] && responses == []
    {
      trace, responses := [], [];
    }

    /** api.destroy_status(id); the response may be an error. */
    method DestroyStatus(id: TweetId) returns (r: Response)
      requires Valid()
      modifies this
      ensures Valid()
      ensures trace == old(trace) + [Destroy(id)]
      ensures responses == old(responses) + [r]
    {
      r := *;
      trace, responses := trace + [Destroy(id)], responses + [r];
    }

    /** api.unretweet(id); the response may be an error. */
    method UnretweetStatus(id: TweetId) returns (r: Response)
      requires Valid()
      modifies this
      ensures Valid()
      ensures trace == old(trace) + [Unretweet(id)]
      ensures responses == old(responses) + [r]
    {
      r := *;
      trace, responses := trace + [Unretweet(id)], responses + [r];
    }
  }

  /** delete_tweet: one destroy call whose error, if any, is swallowed. */
  method DeleteTweet(api: Api, id: TweetId)
    requires api.Valid()
    modifies api
    ensures api.Valid()
    ensures api.trace == old(api.trace) + [Destroy(id)]
  {
    var _ := api.DestroyStatus(id);
  }

  /** unretweet: one unretweet call whose error, if any, is swallowed. */
  method UnretweetTweet(api: Api, id: TweetId)
    requires api.Valid()
    modifies api
    ensures api.Valid()
    ensures api.trace == old(api.trace) + [Unretweet(id)]
  {
    var _ := api.UnretweetStatus(id);
  }

  /** The one call nuke makes for a row: chosen by the row's retweeted flag. */
  function RemovalFor(p: Post): (a: Action)
    ensures a.id == p.id
    ensures a.Unretweet? <==> p.retweeted
  {
    if p.retweeted then Unretweet(p.id) else Destroy(p.id)
  }

  /** The calls nuke makes for the rows, in order. */
  function RemovalCalls(rows: seq<Post>): seq<Action> {
    if rows == [] then [] else RemovalCalls(rows[..|rows| - 1]) + [RemovalFor(rows[|rows| - 1])]
  }

  /**
    nuke: filter the fetched timeline, then make one call per kept row,
    carrying on whatever each call answers, and return the kept rows.
    `timeline` stands for what the fetch of at most Limit rows returned.
  */
  method Nuke(api: Api, timeline: seq<Post>, words: seq<string>) returns (removed: seq<Post>)
    requires api.Valid()
    requires |timeline| <= Limit
    requires LiteralWords(words)
    modifies api
    ensures api.Valid()
    ensures removed == Filter(timeline, words)
    ensures api.trace == old(api.trace) + RemovalCalls(removed)
  {
    removed := Filter(timeline, words);
    var i := 0;
    while i < |removed|
      invariant 0 <= i <= |removed|
      invariant api.Valid()
      invariant api.trace == old(api.trace) + RemovalCalls(removed[..i])
    {
      var row := removed[i];
      if row.retweeted {
        UnretweetTweet(api, row.id);
      } else {
        DeleteTweet(api, row.id);
      }
      assert removed[..i + 1][..i] == removed[..i];
      i := i + 1;
    }
    assert removed[..i] == removed;
  }

  /**
    Dispatch: nuke makes exactly one call per row, in row order, an unretweet
    for a retweet and a destroy for any other row.
  */
  lemma {:induction false} RemovalCallsDispatch(rows: seq<Post>)
    ensures |RemovalCalls(rows)| == |rows|
    ensures forall i :: 0 <= i < |rows| ==>
      (rows[i].retweeted ==> RemovalCalls(rows)[i] == Unretweet(rows[i].id)) &&
      (!rows[i].retweeted ==> RemovalCalls(rows)[i] == Destroy(rows[i].id))
  {
    if rows != [] {
      var n := |rows| - 1;
      RemovalCallsDispatch(rows[..n]);
      forall i | 0 <= i < n ensures rows[..n][i] == rows[i] { }
    }
  }

  /**
    Never both: when ids are unique, a retweet is never destroyed and any
    other row is never unretweeted.
  */
  lemma NeverBoth(rows: seq<Post>)
    requires UniqueIds(rows)
    ensures forall i :: 0 <= i < |rows| && rows[i].retweeted ==> Destroy(rows[i].id) !in RemovalCalls(rows)
    ensures forall i :: 0 <= i < |rows| && !rows[i].retweeted ==> Unretweet(rows[i].id) !in RemovalCalls(rows)
  {
    RemovalCallsDispatch(rows);
  }

  /**
    Never both, for what nuke iterates over: when the fetched timeline has
    unique ids, no row nuke removes is both destroyed and unretweeted.
  */
  lemma NukeNeverBoth(timeline: seq<Post>, words: seq<string>)
    requires LiteralWords(words)
    requires UniqueIds(timeline)
    ensures forall p :: p in Filter(timeline, words) && p.retweeted ==>
      Destroy(p.id) !in RemovalCalls(Filter(timeline, words))
    ensures forall p :: p in Filter(timeline, words) && !p.retweeted ==>
      Unretweet(p.id) !in RemovalCalls(Filter(timeline, words))
  {
    FilterKeepsIdsUnique(timeline, words);
    NeverBoth(Filter(timeline, words));
  }

  /** The two direct modes of the command line. */
  datatype RemovalKind = Tweets | Retweets

  /** The call a direct mode makes for one id. */
  function DirectAction(kind: RemovalKind, id: TweetId): Action {
    match kind
    case Tweets => Destroy(id)
    case Retweets => Unretweet(id)
  }

  /** The calls a direct mode makes for the ids, in order. */
  function DirectCalls(kind: RemovalKind, ids: seq<TweetId>): seq<Action> {
    if ids == [] then [] else DirectCalls(kind, ids[..|ids| - 1]) + [DirectAction(kind, ids[|ids| - 1])]
  }

  /**
    In --delete-tweets mode each id gets exactly one destroy call, in the
    given order, and nothing is unretweeted; --delete-retweets is the mirror.
  */
  lemma {:induction false} DirectCallsExact(kind: RemovalKind, ids: seq<TweetId>)
    ensures |DirectCalls(kind, ids)| == |ids|
    ensures forall i :: 0 <= i < |ids| ==> DirectCalls(kind, ids)[i].id == ids[i]
    ensures forall i :: 0 <= i < |ids| ==> (DirectCalls(kind, ids)[i].Destroy? <==> kind == Tweets)
  {
    if ids != [] {
      var n := |ids| - 1;
      DirectCallsExact(kind, ids[..n]);
      forall i | 0 <= i < n ensures ids[..n][i] == ids[i] { }
    }
  }

  /** The line printed when a direct mode is given no ids. */
  function MissingIdsMessage(kind: RemovalKind): string {
    match kind
    case Tweets => "You need to provide a list of tweets IDs."
    case Retweets => "You need to provide a list of retweets IDs."
  }

  /** The line printed before a direct mode starts its calls. */
  function DeletingMessage(kind: RemovalKind): string {
    match kind
    case Tweets => "Deleting tweets... \U{1F62C}"
    case Retweets => "Deleting retweets... \U{1F62C}"
  }

  const DoneMessage := "Done \U{1F389}"

  /** The lines one direct branch prints. */
  function BranchLines(kind: RemovalKind, ids: seq<TweetId>): seq<string> {
    if ids == [] then [MissingIdsMessage(kind)] else [DeletingMessage(kind), DoneMessage]
  }

  /**
    The --delete-tweets or --delete-retweets branch of the command line: with
    no ids it only prints a message; otherwise it makes one call per id,
    carrying on whatever each call answers. `printed` holds the lines printed.
  */
  method DeleteDirect(api: Api, kind: RemovalKind, ids: seq<TweetId>) returns (printed: seq<string>)
    requires api.Valid()
    modifies api
    ensures api.Valid()
    ensures api.trace == old(api.trace) + DirectCalls(kind, ids)
    ensures ids == [] ==> printed == [MissingIdsMessage(kind)]
    ensures ids != [] ==> printed == [DeletingMessage(kind), DoneMessage]
  {
    if ids == [] {
      printed := [MissingIdsMessage(kind)];
      return;
    }
    printed := [DeletingMessage(kind)];
    var i := 0;
    while i < |ids|
      invariant 0 <= i <= |ids|
      invariant api.Valid()
      invariant api.trace == old(api.trace) + DirectCalls(kind, ids[..i])
    {
      if kind == Tweets {
        DeleteTweet(api, ids[i]);
      } else {
        UnretweetTweet(api, ids[i]);
      }
      assert ids[..i + 1][..i] == ids[..i];
      i := i + 1;
    }
    assert ids[..i] == ids;
    printed := printed + [DoneMessage];
  }

  /**
    The two direct branches of the command line, which are separate tests run
    one after the other: with both flags, every id is destroyed first and then
    every id is unretweeted.
  */
  method DirectModes(api: Api, deleteTweets: bool, deleteRetweets: bool, ids: seq<TweetId>)
    returns (printed: seq<string>)
    requires api.Valid()
    modifies api
    ensures api.Valid()
    ensures api.trace == old(api.trace)
      + (if deleteTweets then DirectCalls(Tweets, ids) else [])
      + (if deleteRetweets then DirectCalls(Retweets, ids) else [])
    ensures printed ==
      (if deleteTweets then BranchLines(Tweets, ids) else [])
      + (if deleteRetweets then BranchLines(Retweets, ids) else [])
  {
    printed := [];
    if deleteTweets {
      var lines := DeleteDirect(api, Tweets, ids);
      printed := printed + lines;
    }
    if deleteRetweets {
      var lines := DeleteDirect(api, Retweets, ids);
      printed := printed + lines;
    }
  }

  /**
    With both direct flags, the first |ids| calls destroy the ids in order and
    the next |ids| calls unretweet them in order.
  */
  lemma {:induction false} BothModesOrder(ids: seq<TweetId>)
    ensures |DirectCalls(Tweets, ids) + DirectCalls(Retweets, ids)| == 2 * |ids|
    ensures forall i :: 0 <= i < |ids| ==>
      (DirectCalls(Tweets, ids) + DirectCalls(Retweets, ids))[i] == Destroy(ids[i]) &&
      (DirectCalls(Tweets, ids) + DirectCalls(Retweets, ids))[|ids| + i] == Unretweet(ids[i])
  {
    DirectCallsExact(Tweets, ids);
    DirectCallsExact(Retweets, ids);
  }
}
