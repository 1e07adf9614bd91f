/**
 This module models sequences of commits against the store. The store looks
 a mutation up by name; here the three names form a closed `Action` type, and
 `Apply` is the dispatch table. `Run` commits a sequence of actions in order.
 */
module Commits {
  import opened Mutations

  /** The three entries of the mutation table; `SetUserName` carries its
      payload. */
  datatype Action = SetMsgAction | ResetMsgAction | SetUserNameAction(data: string)

  /** Dispatch one commit. Every mutation writes exactly one field and
      leaves the other as it was. */
  function Apply(s: State, a: Action): (r: State)
    ensures a.SetUserNameAction? ==> r.msg == s.msg && r.username == a.data
    ensures !a.SetUserNameAction? ==> r.username == s.username
    ensures a == ResetMsgAction ==> r.msg == Greeting
    ensures a == SetMsgAction ==> r.msg == s.msg + s.username
  {
    match a
    case SetMsgAction => SetMsg(s)
    case ResetMsgAction => ResetMsg(s)
    case SetUserNameAction(data) => SetUserName(s, data)
  }

  /** Commit `acts` one after another, starting from `s`. Without a reset the
      old message is never lost, only extended; once a reset has been
      committed, the message always starts with the greeting. */
  function Run(s: State, acts: seq<Action>): (r: State)
    ensures ResetMsgAction !in acts ==> IsPrefix(s.msg, r.msg)
    ensures ResetMsgAction in acts ==> IsPrefix(Greeting, r.msg)
    decreases |acts|
  {
    if |acts| == 0 then s
    else
      var next := Apply(s, acts[0]);
      var r := Run(next, acts[1..]);
      assert acts == [acts[0]] + acts[1..];
      if ResetMsgAction !in acts then
        PrefixTransitive(s.msg, next.msg, r.msg);
        r
      else
        r
  }

  /** Committing `a` and then `b` is committing `a + b`. */
  lemma {:induction false} RunAppend(s: State, a: seq<Action>, b: seq<Action>)
    ensures Run(s, a + b) == Run(Run(s, a), b)
    decreases |a|
  {
    if |a| == 0 {
      assert a + b == b;
    } else {
      assert (a + b)[0] == a[0];
      assert (a + b)[1..] == a[1..] + b;
      RunAppend(Apply(s, a[0]), a[1..], b);
    }
  }

  /** The user name after a run is the payload of the last `SetUserName`
      committed, or the starting user name if there was none. The message
      plays no part in it. */
  lemma {:induction false} RunUserName(s: State, acts: seq<Action>)
    ensures (forall i :: 0 <= i < |acts| ==> !acts[i].SetUserNameAction?) ==>
              Run(s, acts).username == s.username
    ensures forall i :: 0 <= i < |acts| && acts[i].SetUserNameAction? &&
                        (forall j :: i < j < |acts| ==> !acts[j].SetUserNameAction?) ==>
              Run(s, acts).username == acts[i].data
    decreases |acts|
  {
    if |acts| > 0 {
      var next := Apply(s, acts[0]);
      var rest := acts[1..];
      RunUserName(next, rest);
      assert forall i :: 1 <= i < |acts| ==> acts[i] == rest[i - 1];
      forall i | 0 <= i < |acts| && acts[i].SetUserNameAction? &&
                 (forall j :: i < j < |acts| ==> !acts[j].SetUserNameAction?)
        ensures Run(s, acts).username == acts[i].data
      {
        if i == 0 {
          assert forall j :: 0 <= j < |rest| ==> !rest[j].SetUserNameAction?;
        } else {
          assert rest[i - 1] == acts[i];
          assert forall j :: i - 1 < j < |rest| ==> !rest[j].SetUserNameAction?;
        }
      }
    }
  }

  /** The user name alone appended `k` times. */
  function Repeat(u: string, k: nat): (r: string)
    ensures |r| == k * |u|
  {
    if k == 0 then "" else u + Repeat(u, k - 1)
  }

  /** `k` commits of the same action. */
  function Times(a: Action, k: nat): (r: seq<Action>)
    ensures |r| == k
    ensures forall i :: 0 <= i < k ==> r[i] == a
  {
    seq(k, _ => a)
  }

  /** Committing `setMsg` `k` times appends the user name `k` times, so the
      message grows by exactly `k` times the length of the user name. */
  lemma {:induction false} RepeatedSetMsg(s: State, k: nat)
    ensures Run(s, Times(SetMsgAction, k)).msg == s.msg + Repeat(s.username, k)
    ensures |Run(s, Times(SetMsgAction, k)).msg| == |s.msg| + k * |s.username|
    ensures Run(s, Times(SetMsgAction, k)).username == s.username
    decreases k
  {
    if k > 0 {
      var acts := Times(SetMsgAction, k);
      assert acts[1..] == Times(SetMsgAction, k - 1);
      RepeatedSetMsg(SetMsg(s), k - 1);
      assert s.msg + s.username + Repeat(s.username, k - 1)
          == s.msg + (s.username + Repeat(s.username, k - 1));
    }
  }

  /** Whatever was committed before, a final reset leaves the greeting as the
      message and the user name as the run left it. */
  lemma RunEndingInReset(s: State, acts: seq<Action>)
    ensures Run(s, acts + [ResetMsgAction]) == ResetMsg(Run(s, acts))
    ensures Run(s, acts + [ResetMsgAction]).msg == Greeting
  {
    RunAppend(s, acts, [ResetMsgAction]);
  }

  /** A final append after a final reset greets whoever the run left as the
      user. */
  lemma RunEndingInResetThenSetMsg(s: State, acts: seq<Action>)
    ensures Run(s, acts + [ResetMsgAction, SetMsgAction]).msg
         == Greeting + Run(s, acts).username
  {
    RunAppend(s, acts, [ResetMsgAction, SetMsgAction]);
  }
}
