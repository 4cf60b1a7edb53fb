/** Client selection: `GetClient`, the lazily created shared client
    (`getCachedClient`) and `selectClient`. The identity of a Go client value is modelled
    by an allocation number, and the package-level `cachedClient` variable by
    an explicit state that every call takes and returns. */
module Clients {
  import opened Wrappers

  /** Durations are `time.Duration` values: whole nanoseconds. */
  const Second: int := 1_000_000_000

  /** `defaultTimeout`: 30 seconds. */
  const DefaultTimeout: int := 30 * Second

  /** An `*http.Client`. `id` is its identity (its address in Go); `followsRedirects`
      is false for every client this package builds, whose `CheckRedirect`
      answers `http.ErrUseLastResponse`. */
  datatype Client = Client(id: nat, timeout: int, followsRedirects: bool)

  /** The package's client state: the `cachedClient` variable and the number
      of clients issued so far (so the next one gets a new identity). */
  datatype ClientState = ClientState(cached: Option<Client>, issued: nat)

  /** The shared client, once created, has been allocated and carries the
      standard configuration. */
  predicate Valid(st: ClientState) {
    st.cached.Some? ==>
      && st.cached.value.id < st.issued
      && st.cached.value.timeout == DefaultTimeout
      && !st.cached.value.followsRedirects
  }

  /** The state before any call: no shared client yet. */
  const Initial: ClientState := ClientState(None, 0)

  /** A client and the state after obtaining it. */
  datatype Selected = Selected(client: Client, state: ClientState)

  /** `GetClient`: a new client that does not follow redirects and has the
      default timeout. */
  function GetClient(st: ClientState): (r: Selected)
    ensures r.client.timeout == DefaultTimeout && !r.client.followsRedirects
    ensures r.client.id >= st.issued && r.client.id < r.state.issued
    ensures r.state.cached == st.cached
    ensures Valid(st) ==> Valid(r.state)
  {
    Selected(Client(st.issued, DefaultTimeout, false), ClientState(st.cached, st.issued + 1))
  }

  /** `getCachedClient`: the shared client, created on first use. */
  function GetCachedClient(st: ClientState): (r: Selected)
    ensures r.state.cached == Some(r.client)
    ensures Valid(st) ==> Valid(r.state)
    ensures Valid(st) ==> r.client.timeout == DefaultTimeout && !r.client.followsRedirects
    ensures st.cached.Some? ==> r == Selected(st.cached.value, st)
    ensures st.cached.None? ==> r.client.id >= st.issued
  {
    if st.cached.None? then
      var made := GetClient(st);
      Selected(made.client, made.state.(cached := Some(made.client)))
    else
      Selected(st.cached.value, st)
  }

  /** `selectClient`: a nonzero timeout gets a new client with that timeout
      and leaves the shared client alone; zero gets the shared client. */
  function SelectClient(timeout: int, st: ClientState): (r: Selected)
    ensures Valid(st) ==> Valid(r.state)
    ensures timeout != 0 ==>
      && r.client.timeout == timeout
      && !r.client.followsRedirects
      && r.client.id >= st.issued
      && r.state.cached == st.cached
    ensures timeout == 0 ==> r.state.cached == Some(r.client)
    ensures timeout == 0 && Valid(st) ==> r.client.timeout == DefaultTimeout && !r.client.followsRedirects
    ensures timeout == 0 && st.cached.Some? ==> r == Selected(st.cached.value, st)
    ensures st.issued <= r.state.issued
  {
    if timeout != 0 then
      var made := GetClient(st);
      Selected(made.client.(timeout := timeout), made.state)
    else
      GetCachedClient(st)
  }

  /** The package starts with no shared client (`cachedClient` nil). The first
      zero-timeout call creates client 0 with the default timeout and no
      redirect following, and caches it. */
  lemma FirstSharedClient()
    ensures Valid(Initial)
    ensures var first := SelectClient(0, Initial);
      && first.client == Client(0, DefaultTimeout, false)
      && first.state == ClientState(Some(first.client), 1)
  {
  }

  /** Once a zero-timeout call has returned the shared client, the next such
      call returns the identical client and changes nothing. */
  lemma SharedClientIsStable(st: ClientState)
    requires Valid(st)
    ensures var first := SelectClient(0, st);
      && SelectClient(0, first.state) == first
      && first.client.timeout == DefaultTimeout
      && !first.client.followsRedirects
  {
  }

  /** A run of successive `selectClient` calls, one per timeout, returning
      the clients in call order and the final state. */
  function SelectAll(timeouts: seq<int>, st: ClientState): (r: (seq<Client>, ClientState))
    ensures |r.0| == |timeouts|
    decreases |timeouts|
  {
    if |timeouts| == 0 then ([], st)
    else
      var first := SelectClient(timeouts[0], st);
      var rest := SelectAll(timeouts[1..], first.state);
      ([first.client] + rest.0, rest.1)
  }

  /** Over any run of calls the state stays valid, allocation only grows,
      an existing shared client stays, a shared client created during the run
      is new, and every client handed out was allocated and does not follow
      redirects. */
  lemma {:induction false} SelectAllFrame(timeouts: seq<int>, st: ClientState)
    requires Valid(st)
    ensures var (cs, st') := SelectAll(timeouts, st);
      && Valid(st')
      && st.issued <= st'.issued
      && (st.cached.Some? ==> st'.cached == st.cached)
      && (st.cached.None? && st'.cached.Some? ==> st'.cached.value.id >= st.issued)
      && (forall i :: 0 <= i < |cs| ==> cs[i].id < st'.issued && !cs[i].followsRedirects)
    decreases |timeouts|
  {
    if |timeouts| > 0 {
      var first := SelectClient(timeouts[0], st);
      SelectAllFrame(timeouts[1..], first.state);
      var (rest, st') := SelectAll(timeouts[1..], first.state);
      assert SelectAll(timeouts, st) == ([first.client] + rest, st');
    }
  }

  /** Every zero-timeout call of a run gets the client left in the cache at
      the end, with the default timeout. */
  lemma {:induction false} SelectAllShared(timeouts: seq<int>, st: ClientState)
    requires Valid(st)
    ensures var (cs, st') := SelectAll(timeouts, st);
      forall i :: 0 <= i < |cs| && timeouts[i] == 0 ==> Some(cs[i]) == st'.cached && cs[i].timeout == DefaultTimeout
    decreases |timeouts|
  {
    if |timeouts| > 0 {
      var first := SelectClient(timeouts[0], st);
      SelectAllShared(timeouts[1..], first.state);
      SelectAllFrame(timeouts[1..], first.state);
      var (rest, st') := SelectAll(timeouts[1..], first.state);
      var cs := [first.client] + rest;
      assert SelectAll(timeouts, st) == (cs, st');
      assert forall i :: 1 <= i < |cs| ==> cs[i] == rest[i - 1] && timeouts[i] == timeouts[1..][i - 1];
    }
  }

  /** Every nonzero-timeout call of a run gets a client of its own: with its
      timeout, newly allocated, different from every other client of the run
      and from the shared client. */
  lemma {:induction false} SelectAllPrivate(timeouts: seq<int>, st: ClientState)
    requires Valid(st)
    ensures var (cs, st') := SelectAll(timeouts, st);
      && (forall i :: 0 <= i < |cs| && timeouts[i] != 0 ==> cs[i].timeout == timeouts[i] && cs[i].id >= st.issued)
      && (forall i, j :: 0 <= i < |cs| && 0 <= j < |cs| && i != j && timeouts[i] != 0 ==> cs[i].id != cs[j].id)
      && (forall i :: 0 <= i < |cs| && timeouts[i] != 0 && st'.cached.Some? ==> cs[i].id != st'.cached.value.id)
    decreases |timeouts|
  {
    if |timeouts| > 0 {
      var first := SelectClient(timeouts[0], st);
      SelectAllPrivate(timeouts[1..], first.state);
      SelectAllShared(timeouts[1..], first.state);
      SelectAllFrame(timeouts[1..], first.state);
      var (rest, st') := SelectAll(timeouts[1..], first.state);
      var cs := [first.client] + rest;
      assert SelectAll(timeouts, st) == (cs, st');
      assert forall i :: 1 <= i < |cs| ==> cs[i] == rest[i - 1] && timeouts[i] == timeouts[1..][i - 1];
      // every later client is either the shared one or newer than the first
      assert forall i :: 1 <= i < |cs| ==> (timeouts[i] == 0 && Some(cs[i]) == st'.cached) || cs[i].id >= first.state.issued;
      if timeouts[0] != 0 {
        assert st'.cached.Some? ==> st'.cached.value.id != first.client.id;
      } else {
        assert st'.cached == Some(first.client);
      }
    }
  }

  /** Over any run of calls: every zero-timeout call gets the same client,
      which has the default timeout and is the one left in the cache; every
      nonzero-timeout call gets its own client, with its timeout, distinct
      from every other client handed out in the run and from the shared one. */
  lemma SelectAllSharesOnlyTheCachedClient(timeouts: seq<int>, st: ClientState)
    requires Valid(st)
    ensures var (cs, st') := SelectAll(timeouts, st);
      && Valid(st')
      && (st.cached.Some? ==> st'.cached == st.cached)
      && (forall i, j :: 0 <= i < |cs| && 0 <= j < |cs| && timeouts[i] == 0 && timeouts[j] == 0 ==> cs[i] == cs[j])
      && (forall i :: 0 <= i < |cs| && timeouts[i] == 0 ==> Some(cs[i]) == st'.cached && cs[i].timeout == DefaultTimeout)
      && (forall i :: 0 <= i < |cs| && timeouts[i] != 0 ==> cs[i].timeout == timeouts[i])
      && (forall i, j :: 0 <= i < |cs| && 0 <= j < |cs| && i != j && timeouts[i] != 0 ==> cs[i] != cs[j])
      && (forall i :: 0 <= i < |cs| && timeouts[i] != 0 ==> Some(cs[i]) != st'.cached)
  {
    SelectAllFrame(timeouts, st);
    SelectAllShared(timeouts, st);
    SelectAllPrivate(timeouts, st);
  }
}
