/**
 * helpers/sns.go UnsubscribeUser: find the topic subscription whose endpoint
 * is the e-mail address, then report it as missing, pending, or remove it.
 *
 * Loading the AWS configuration, listing the topic's subscriptions and the
 * Unsubscribe call are oracles.
 */
module HelpersSns {
  import opened Common

  /** A listed subscription: its endpoint (possibly absent) and its ARN. */
  datatype Subscription = Subscription(endpoint: Option<string>, subscriptionArn: string)

  /** The ARN SNS reports for a subscription that is not yet confirmed. */
  const Pending := "PendingConfirmation"

  function NotFoundMessage(email: string): string { "No active subscription found for " + email }
  function PendingMessage(email: string): string { "Subscription for " + email + " is still pending confirmation; no action taken" }
  function SuccessMessage(email: string): string { "Successfully unsubscribed " + email }

  /** A subscription belongs to the address when its endpoint is present and equal to it. */
  predicate Matches(sub: Subscription, email: string)
  {
    sub.endpoint == Some(email)
  }

  /** The position of the first subscription that belongs to the address, or -1. */
  function FirstMatch(subs: seq<Subscription>, email: string): (r: int)
    ensures -1 <= r < |subs|
    ensures r >= 0 ==> Matches(subs[r], email)
    ensures forall k :: 0 <= k < |subs| && (r < 0 || k < r) ==> !Matches(subs[k], email)
    decreases |subs|
  {
    if subs == [] then -1
    else if Matches(subs[0], email) then 0
    else
      var r := FirstMatch(subs[1..], email);
      if r < 0 then -1 else r + 1
  }

  /** The ARN the search settles on: the first match's, or "" when nothing matches. */
  function ChosenArn(subs: seq<Subscription>, email: string): string
  {
    var r := FirstMatch(subs, email);
    if r < 0 then "" else subs[r].subscriptionArn
  }

  /**
   * UnsubscribeUser. `loadConfig` is the outcome of loading the AWS
   * configuration, `listSubscriptions` lists a topic's subscriptions and
   * `unsubscribe` removes one by ARN; `unsubscribed` records the ARNs
   * passed to it.
   */
  method UnsubscribeUser(
    topicARN: string,
    email: string,
    loadConfig: Status,
    listSubscriptions: string -> Result<seq<Subscription>>,
    unsubscribe: string -> Status)
    returns (message: string, err: Option<string>, unsubscribed: seq<string>)
    ensures loadConfig.Failed? ==>
              && message == "" && unsubscribed == []
              && err == Some("failed to create SNS client: failed to load AWS config: " + loadConfig.error)
    ensures loadConfig.Ok? && listSubscriptions(topicARN).Failure? ==>
              && message == "" && unsubscribed == []
              && err == Some("failed to list subscriptions: " + listSubscriptions(topicARN).error)
    ensures loadConfig.Ok? && listSubscriptions(topicARN).Success? ==>
              var arn := ChosenArn(listSubscriptions(topicARN).value, email);
              && (arn == "" ==> message == NotFoundMessage(email) && err == None && unsubscribed == [])
              && (arn == Pending ==> message == PendingMessage(email) && err == None && unsubscribed == [])
              && (arn != "" && arn != Pending ==>
                    && unsubscribed == [arn]
                    && (unsubscribe(arn).Failed? ==>
                          message == "" && err == Some("failed to unsubscribe " + email + ": " + unsubscribe(arn).error))
                    && (unsubscribe(arn).Ok? ==> message == SuccessMessage(email) && err == None))
  {
    unsubscribed := [];
    if loadConfig.Failed? {
      return "", Some("failed to create SNS client: failed to load AWS config: " + loadConfig.error), unsubscribed;
    }
    var result := listSubscriptions(topicARN);
    if result.Failure? {
      return "", Some("failed to list subscriptions: " + result.error), unsubscribed;
    }
    var subs := result.value;
    var subscriptionArn := "";
    for i := 0 to |subs|
      invariant subscriptionArn == ""
      invariant forall k :: 0 <= k < i ==> !Matches(subs[k], email)
    {
      var sub := subs[i];
      if sub.endpoint.Some? && sub.endpoint.value == email {
        subscriptionArn := sub.subscriptionArn;
        assert FirstMatch(subs, email) == i;
        break;
      }
    }
    assert subscriptionArn == ChosenArn(subs, email);
    if subscriptionArn == "" {
      return NotFoundMessage(email), None, unsubscribed;
    }
    if subscriptionArn == Pending {
      return PendingMessage(email), None, unsubscribed;
    }
    var status := unsubscribe(subscriptionArn);
    unsubscribed := unsubscribed + [subscriptionArn];
    if status.Failed? {
      return "", Some("failed to unsubscribe " + email + ": " + status.error), unsubscribed;
    }
    return SuccessMessage(email), None, unsubscribed;
  }

  /** Subscriptions that do not belong to the address, listed first, do not change the choice. */
  lemma NonMatchesSkipped(pre: seq<Subscription>, subs: seq<Subscription>, email: string)
    requires forall k :: 0 <= k < |pre| ==> !Matches(pre[k], email)
    ensures ChosenArn(pre + subs, email) == ChosenArn(subs, email)
  {
    FirstMatchAfter(pre, subs, email);
    var r := FirstMatch(subs, email);
    if r >= 0 {
      assert (pre + subs)[|pre| + r] == subs[r];
    }
  }

  /** The first match behind non-matching subscriptions is found where it is, shifted by their number. */
  lemma {:induction false} FirstMatchAfter(pre: seq<Subscription>, subs: seq<Subscription>, email: string)
    requires forall k :: 0 <= k < |pre| ==> !Matches(pre[k], email)
    ensures var r := FirstMatch(subs, email);
            FirstMatch(pre + subs, email) == if r < 0 then -1 else |pre| + r
    decreases |pre|
  {
    if pre == [] {
      assert pre + subs == subs;
    } else {
      assert (pre + subs)[1..] == pre[1..] + subs;
      assert (pre + subs)[0] == pre[0];
      FirstMatchAfter(pre[1..], subs, email);
    }
  }

  /** Once the address has a subscription, later ones are never considered. */
  lemma LaterIgnored(subs: seq<Subscription>, post: seq<Subscription>, email: string)
    requires exists k :: 0 <= k < |subs| && Matches(subs[k], email)
    ensures ChosenArn(subs + post, email) == ChosenArn(subs, email)
  {
    var r := FirstMatch(subs, email);
    var q := FirstMatch(subs + post, email);
    assert (subs + post)[r] == subs[r];
    assert q == r by {
      assert q <= r;
      assert q >= 0 ==> (subs + post)[q] == subs[q];
    }
  }

  /** A first match whose ARN is empty reads as no subscription, even when a later one has a real ARN. */
  lemma EmptyArnHidesLater(subs: seq<Subscription>, email: string, i: nat, j: nat)
    requires i < j < |subs| && Matches(subs[i], email) && Matches(subs[j], email)
    requires forall k :: 0 <= k < i ==> !Matches(subs[k], email)
    requires subs[i].subscriptionArn == "" && subs[j].subscriptionArn != ""
    ensures ChosenArn(subs, email) == ""
  {
    assert FirstMatch(subs, email) == i;
  }
}
