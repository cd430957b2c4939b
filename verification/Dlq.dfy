/** Messages, the durable attempt counter, retry copies and dead letters (dlq.py). */
module Dlq {
  import opened Domain

  /** The bytes of a header, as `int` reads them: a decimal number, or something else. */
  datatype HeaderValue = Decimal(number: int) | Other(text: string)

  const ATTEMPT_HEADER := "x-fsp-attempt"

  type Headers = map<string, HeaderValue>

  /** The bytes of a message: the JSON of an event, or something that does not deserialise. */
  datatype Body<E> = Json(event: E) | Junk(text: string)

  datatype Message<E> = Message(body: Body<E>, headers: Headers)

  /** What became of a publish: acknowledged; stored although the acknowledgement got lost; lost. */
  datatype Publish = Acked | LandedUnacked | Lost

  function GetAttempt(headers: Headers): int {
    if ATTEMPT_HEADER in headers && headers[ATTEMPT_HEADER].Decimal? then headers[ATTEMPT_HEADER].number else 0
  }

  function NextAttempt(headers: Headers): int { GetAttempt(headers) + 1 }

  function WithAttempt(headers: Headers, attempt: int): Headers { headers[ATTEMPT_HEADER := Decimal(attempt)] }

  function RetryCopy<E>(m: Message<E>): Message<E> { m.(headers := WithAttempt(m.headers, NextAttempt(m.headers))) }

  predicate MayRetry<E>(m: Message<E>, maxAttempts: int) { NextAttempt(m.headers) < maxAttempts }

  /** Each message is the retry copy of the one before it. */
  ghost predicate RetryChain<E(!new)>(chain: seq<Message<E>>, maxAttempts: int) {
    chain != [] && forall i :: 0 <= i < |chain| - 1 ==>
      MayRetry(chain[i], maxAttempts) && chain[i + 1] == RetryCopy(chain[i])
  }

  /** A retry chain carries one event, counts its attempts, and ends below the limit. */
  lemma {:induction false} ChainsAreShort<E(!new)>(chain: seq<Message<E>>, maxAttempts: int)
    requires RetryChain(chain, maxAttempts)
    ensures var first, last := chain[0], chain[|chain| - 1];
      && last.body == first.body && last.headers - {ATTEMPT_HEADER} == first.headers - {ATTEMPT_HEADER}
      && GetAttempt(last.headers) == GetAttempt(first.headers) + |chain| - 1
      && (|chain| > 1 ==> |chain| - 1 < maxAttempts - GetAttempt(first.headers))
  {
    if |chain| > 1 {
      var front := chain[..|chain| - 1];
      ChainsAreShort(front, maxAttempts);
      assert chain[|chain| - 2 + 1] == RetryCopy(chain[|chain| - 2]);
    }
  }

  lemma ChainGrows<E(!new)>(first: Message<E>, rest: seq<Message<E>>, maxAttempts: int)
    requires RetryChain(rest, maxAttempts) && MayRetry(first, maxAttempts) && rest[0] == RetryCopy(first)
    ensures RetryChain([first] + rest, maxAttempts)
  {
    var chain := [first] + rest;
    forall i | 0 <= i < |chain| - 1
      ensures MayRetry(chain[i], maxAttempts) && chain[i + 1] == RetryCopy(chain[i])
    {
      if i > 0 {
        var j := i - 1;
        assert chain[i] == rest[j] && chain[i + 1] == rest[j + 1];
      }
    }
  }
}
