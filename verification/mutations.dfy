/**
 This module models the mutation table of the store: a state record with a
 message and a user name, and the three synchronous updates that may be
 committed against it. Each update is a pure function from the old record to
 the new one; in-place assignment in the store corresponds to replacing the
 record by the function's result.
 */
module Mutations {

  /** The greeting that `ResetMsg` writes, with its trailing space. */
  const Greeting: string := "Hello "

  /** The store's state record. Both fields are strings; the coercion the
      store would apply to a non-string user name is not modelled. */
  datatype State = State(msg: string, username: string)

  /** True iff `p` is a prefix of `s`. */
  predicate IsPrefix(p: string, s: string) {
    |p| <= |s| && s[..|p|] == p
  }

  /** Being a prefix is transitive. */
  lemma PrefixTransitive(a: string, b: string, c: string)
    requires IsPrefix(a, b) && IsPrefix(b, c)
    ensures IsPrefix(a, c)
  {
    assert c[..|b|][..|a|] == c[..|a|];
  }

  /** `setMsg`: append the current user name to the message. The old message
      survives as a prefix, the user name is what follows it, and the user name
      field itself is untouched. */
  function SetMsg(s: State): (r: State)
    ensures r.username == s.username
    ensures |r.msg| == |s.msg| + |s.username|
    ensures IsPrefix(s.msg, r.msg)
    ensures r.msg[|s.msg|..] == s.username
  {
    s.(msg := s.msg + s.username)
  }

  /** `resetMsg`: the message becomes the greeting whatever it was before;
      the user name is untouched. */
  function ResetMsg(s: State): (r: State)
    ensures r.msg == Greeting
    ensures r.username == s.username
  {
    s.(msg := Greeting)
  }

  /** `setUserName`: the user name becomes the payload, verbatim; the message
      is untouched. */
  function SetUserName(s: State, data: string): (r: State)
    ensures r.username == data
    ensures r.msg == s.msg
  {
    s.(username := data)
  }

  /** Appending changes the state exactly when there is something to append:
      `SetMsg` is a no-op iff the user name is empty. */
  lemma SetMsgFixedIffEmptyName(s: State)
    ensures SetMsg(s) == s <==> s.username == ""
  {
    if s.username == "" {
      assert s.msg + s.username == s.msg;
    }
  }

  /** `SetMsg` is not idempotent: committing it twice differs from committing
      it once whenever the user name is non-empty, because the second commit
      appends the name again. */
  lemma SetMsgNotIdempotent(s: State)
    requires s.username != ""
    ensures SetMsg(SetMsg(s)) != SetMsg(s)
    ensures SetMsg(SetMsg(s)).msg == s.msg + s.username + s.username
  {
    SetMsgFixedIffEmptyName(SetMsg(s));
  }

  /** `ResetMsg` is idempotent. */
  lemma ResetMsgIdempotent(s: State)
    ensures ResetMsg(ResetMsg(s)) == ResetMsg(s)
  {
  }

  /** `ResetMsg` forgets the old message completely: two states end up equal
      after a reset iff they had the same user name. */
  lemma ResetMsgForgetsMsg(s: State, t: State)
    ensures ResetMsg(s) == ResetMsg(t) <==> s.username == t.username
  {
  }

  /** `SetUserName` is idempotent, and of two consecutive calls only the
      last payload matters. */
  lemma SetUserNameLastWins(s: State, a: string, b: string)
    ensures SetUserName(SetUserName(s, a), a) == SetUserName(s, a)
    ensures SetUserName(SetUserName(s, a), b) == SetUserName(s, b)
  {
  }

  /** `SetUserName` forgets the old user name: two states end up equal after
      setting the same payload iff they had the same message. */
  lemma SetUserNameForgetsName(s: State, t: State, data: string)
    ensures SetUserName(s, data) == SetUserName(t, data) <==> s.msg == t.msg
  {
  }

  /** A reset followed by an append greets the current user. */
  lemma ResetThenSetMsgGreets(s: State)
    ensures SetMsg(ResetMsg(s)).msg == Greeting + s.username
    ensures SetMsg(ResetMsg(s)).username == s.username
  {
  }

  /** A reset wipes out whatever appends came before it. */
  lemma ResetAbsorbsSetMsg(s: State)
    ensures ResetMsg(SetMsg(s)) == ResetMsg(s)
  {
  }

  /** `ResetMsg` and `SetUserName` write disjoint fields, so their order
      does not matter. */
  lemma ResetMsgCommutesWithSetUserName(s: State, data: string)
    ensures ResetMsg(SetUserName(s, data)) == SetUserName(ResetMsg(s), data)
  {
  }
}
