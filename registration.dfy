/** The root-command registration table of `SpongeCommandManager.registerCommand`,
    as a value: the name-to-root map, the set of root objects whose
    `isRegistered` flag is set, and the calls made to the host's command
    registrar, in order. `R` stands for the identity of a root-command object. */
module Registration {
  import opened Ascii

  /** One entry of a command's batch: the name it was declared under and its root command. */
  datatype Entry<R> = Entry(name: string, root: R)

  /** One call to the host registrar: the (lowercased) alias and the root command. */
  datatype HostCall<R> = HostCall(name: string, root: R)

  datatype Table<R> = Table(commands: map<string, R>, registered: set<R>, hostCalls: seq<HostCall<R>>)

  /** One iteration of the registration loop: lowercase the name, call the host
      registrar unless the root is already flagged, flag it, and store it. */
  function Register<R>(t: Table<R>, e: Entry<R>): (r: Table<R>)
    ensures Lower(e.name) in r.commands && r.commands[Lower(e.name)] == e.root
    ensures r.commands.Keys == t.commands.Keys + {Lower(e.name)}
    ensures e.root in r.registered && t.registered <= r.registered
    ensures e.root in t.registered ==> r.hostCalls == t.hostCalls
    ensures e.root !in t.registered ==> r.hostCalls == t.hostCalls + [HostCall(Lower(e.name), e.root)]
  {
    var name := Lower(e.name);
    Table(t.commands[name := e.root],
          t.registered + {e.root},
          if e.root in t.registered then t.hostCalls else t.hostCalls + [HostCall(name, e.root)])
  }

  /** The whole loop over a batch, in the batch's order. */
  function RegisterAll<R>(t: Table<R>, batch: seq<Entry<R>>): (r: Table<R>)
    ensures t.commands.Keys <= r.commands.Keys
    ensures t.registered <= r.registered
    ensures |t.hostCalls| <= |r.hostCalls| && r.hostCalls[..|t.hostCalls|] == t.hostCalls
  {
    if |batch| == 0 then t
    else Register(RegisterAll(t, batch[..|batch| - 1]), batch[|batch| - 1])
  }

  /** One more step of the loop over a batch. */
  lemma RegisterAllStep<R>(t: Table<R>, batch: seq<Entry<R>>, i: nat)
    requires i < |batch|
    ensures RegisterAll(t, batch[..i + 1]) == Register(RegisterAll(t, batch[..i]), batch[i])
  {
    assert batch[..i + 1][..i] == batch[..i];
  }

  /** The keys a batch stores under. */
  function BatchKeys<R>(batch: seq<Entry<R>>): set<string>
  {
    set i | 0 <= i < |batch| :: Lower(batch[i].name)
  }

  /** The root commands a batch carries. */
  function Roots<R>(batch: seq<Entry<R>>): set<R>
  {
    set i | 0 <= i < |batch| :: batch[i].root
  }

  /** The map a batch alone builds: later entries overwrite earlier ones with the same key. */
  function BatchMap<R>(batch: seq<Entry<R>>): map<string, R>
  {
    if |batch| == 0 then map[]
    else BatchMap(batch[..|batch| - 1])[Lower(batch[|batch| - 1].name) := batch[|batch| - 1].root]
  }

  predicate KeysLower<R>(m: map<string, R>)
  {
    forall k :: k in m ==> IsLower(k)
  }

  function CalledRoots<R>(calls: seq<HostCall<R>>): set<R>
  {
    set i | 0 <= i < |calls| :: calls[i].root
  }

  /** Entry `i` is the first entry of the batch that carries `root`. */
  ghost predicate FirstCarrier<R>(batch: seq<Entry<R>>, i: int, root: R)
  {
    0 <= i < |batch| && batch[i].root == root && forall j :: 0 <= j < i ==> batch[j].root != root
  }

  /** No root command was handed to the host registrar twice. */
  predicate CalledOnce<R(==)>(calls: seq<HostCall<R>>)
  {
    forall i, j :: 0 <= i < j < |calls| ==> calls[i].root != calls[j].root
  }

  lemma CalledRootsSnoc<R>(calls: seq<HostCall<R>>, call: HostCall<R>)
    ensures CalledRoots(calls + [call]) == CalledRoots(calls) + {call.root}
  {
    var s := calls + [call];
    forall x | x in CalledRoots(s)
      ensures x in CalledRoots(calls) + {call.root}
    {
      var i :| 0 <= i < |s| && x == s[i].root;
      if i < |calls| { assert s[i] == calls[i]; }
    }
    forall x | x in CalledRoots(calls)
      ensures x in CalledRoots(s)
    {
      var i :| 0 <= i < |calls| && x == calls[i].root;
      assert s[i] == calls[i];
    }
    assert s[|calls|] == call;
  }

  lemma CalledRootsAppend<R>(a: seq<HostCall<R>>, b: seq<HostCall<R>>)
    ensures CalledRoots(a + b) == CalledRoots(a) + CalledRoots(b)
  {
    var s := a + b;
    forall x | x in CalledRoots(s)
      ensures x in CalledRoots(a) + CalledRoots(b)
    {
      var i :| 0 <= i < |s| && x == s[i].root;
      if i < |a| { assert s[i] == a[i]; } else { assert s[i] == b[i - |a|]; }
    }
    forall x | x in CalledRoots(a)
      ensures x in CalledRoots(s)
    {
      var i :| 0 <= i < |a| && x == a[i].root;
      assert s[i] == a[i];
    }
    forall x | x in CalledRoots(b)
      ensures x in CalledRoots(s)
    {
      var i :| 0 <= i < |b| && x == b[i].root;
      assert s[|a| + i] == b[i];
    }
  }

  lemma CalledRootsEmpty<R>(calls: seq<HostCall<R>>)
    ensures CalledRoots(calls) == {} ==> calls == []
  {
    if calls != [] {
      assert calls[0].root in CalledRoots(calls);
    }
  }

  lemma {:induction false} BatchSnoc<R>(batch: seq<Entry<R>>)
    requires |batch| > 0
    ensures BatchKeys(batch) == BatchKeys(batch[..|batch| - 1]) + {Lower(batch[|batch| - 1].name)}
    ensures Roots(batch) == Roots(batch[..|batch| - 1]) + {batch[|batch| - 1].root}
  {
    var b', n := batch[..|batch| - 1], |batch| - 1;
    forall k | k in BatchKeys(batch)
      ensures k in BatchKeys(b') + {Lower(batch[n].name)}
    {
      var i :| 0 <= i < |batch| && k == Lower(batch[i].name);
      if i < n { assert b'[i] == batch[i]; }
    }
    forall k | k in BatchKeys(b')
      ensures k in BatchKeys(batch)
    {
      var i :| 0 <= i < |b'| && k == Lower(b'[i].name);
      assert batch[i] == b'[i];
    }
    forall r | r in Roots(batch)
      ensures r in Roots(b') + {batch[n].root}
    {
      var i :| 0 <= i < |batch| && r == batch[i].root;
      if i < n { assert b'[i] == batch[i]; }
    }
    forall r | r in Roots(b')
      ensures r in Roots(batch)
    {
      var i :| 0 <= i < |b'| && r == b'[i].root;
      assert batch[i] == b'[i];
    }
  }

  /** The batch's map has exactly the batch's lowercased names as keys. */
  lemma {:induction false} BatchMapKeys<R>(batch: seq<Entry<R>>)
    ensures BatchMap(batch).Keys == BatchKeys(batch)
  {
    if |batch| > 0 {
      BatchMapKeys(batch[..|batch| - 1]);
      BatchSnoc(batch);
    }
  }

  /** An entry whose lowercased name no later entry shares is what the batch's map holds under that name. */
  lemma {:induction false} BatchMapLastWins<R>(batch: seq<Entry<R>>, i: nat)
    requires i < |batch|
    requires forall j :: i < j < |batch| ==> Lower(batch[j].name) != Lower(batch[i].name)
    ensures Lower(batch[i].name) in BatchMap(batch)
    ensures BatchMap(batch)[Lower(batch[i].name)] == batch[i].root
  {
    if i < |batch| - 1 {
      var b' := batch[..|batch| - 1];
      assert b'[i] == batch[i];
      BatchMapLastWins(b', i);
    }
  }

  /** The loop leaves the old map overwritten by the batch's map. */
  lemma {:induction false} RegisterAllCommands<R>(t: Table<R>, batch: seq<Entry<R>>)
    ensures RegisterAll(t, batch).commands == t.commands + BatchMap(batch)
  {
    if |batch| > 0 {
      RegisterAllCommands(t, batch[..|batch| - 1]);
    }
  }

  /** Every key the loop stores is the lowercase form of a batch name; keys
      outside the batch keep their old values; the map never shrinks. */
  lemma {:induction false} RegisterAllKeys<R>(t: Table<R>, batch: seq<Entry<R>>)
    ensures RegisterAll(t, batch).commands.Keys == t.commands.Keys + BatchKeys(batch)
    ensures forall k :: k in t.commands && k !in BatchKeys(batch) ==>
      RegisterAll(t, batch).commands[k] == t.commands[k]
  {
    RegisterAllCommands(t, batch);
    BatchMapKeys(batch);
  }

  /** Last write wins: each entry that no later entry shadows is stored under its
      lowercased name, whatever was stored there before. */
  lemma {:induction false} RegisterAllLastWins<R>(t: Table<R>, batch: seq<Entry<R>>, i: nat)
    requires i < |batch|
    requires forall j :: i < j < |batch| ==> Lower(batch[j].name) != Lower(batch[i].name)
    ensures Lower(batch[i].name) in RegisterAll(t, batch).commands
    ensures RegisterAll(t, batch).commands[Lower(batch[i].name)] == batch[i].root
  {
    RegisterAllCommands(t, batch);
    BatchMapLastWins(batch, i);
  }

  /** When no two names of the batch lowercase alike, every entry is stored under
      its lowercased name and mapped to its own root command. */
  lemma {:induction false} RegisterAllStoresEveryEntry<R>(t: Table<R>, batch: seq<Entry<R>>)
    requires forall i, j :: 0 <= i < j < |batch| ==> Lower(batch[i].name) != Lower(batch[j].name)
    ensures forall i :: 0 <= i < |batch| ==>
      Lower(batch[i].name) in RegisterAll(t, batch).commands &&
      RegisterAll(t, batch).commands[Lower(batch[i].name)] == batch[i].root
  {
    forall i | 0 <= i < |batch|
      ensures Lower(batch[i].name) in RegisterAll(t, batch).commands
      ensures RegisterAll(t, batch).commands[Lower(batch[i].name)] == batch[i].root
    {
      RegisterAllLastWins(t, batch, i);
    }
  }

  /** Every root the table holds afterwards was held before or comes from the batch. */
  lemma {:induction false} RegisterAllValues<R>(t: Table<R>, batch: seq<Entry<R>>)
    ensures RegisterAll(t, batch).commands.Values <= t.commands.Values + Roots(batch)
  {
    if |batch| > 0 {
      var b', e := batch[..|batch| - 1], batch[|batch| - 1];
      var t' := RegisterAll(t, b');
      RegisterAllValues(t, b');
      BatchSnoc(batch);
      var m := RegisterAll(t, batch).commands;
      forall v | v in m.Values
        ensures v in t.commands.Values + Roots(batch)
      {
        var k :| k in m && m[k] == v;
        if k != Lower(e.name) {
          assert v in t'.commands.Values;
        }
      }
    }
  }

  /** Lowercase keys stay lowercase. */
  lemma {:induction false} RegisterAllKeysLower<R>(t: Table<R>, batch: seq<Entry<R>>)
    requires KeysLower(t.commands)
    ensures KeysLower(RegisterAll(t, batch).commands)
  {
    RegisterAllKeys(t, batch);
  }

  /** After the loop every root command of the batch is flagged, and nothing else is newly flagged. */
  lemma {:induction false} RegisterAllFlags<R>(t: Table<R>, batch: seq<Entry<R>>)
    ensures RegisterAll(t, batch).registered == t.registered + Roots(batch)
  {
    if |batch| > 0 {
      RegisterAllFlags(t, batch[..|batch| - 1]);
      BatchSnoc(batch);
    }
  }

  /** The loop only appends host calls; it calls the host once for each root of the
      batch that was not flagged beforehand and for no other, under a lowercase name. */
  lemma {:induction false} RegisterAllHostCalls<R>(t: Table<R>, batch: seq<Entry<R>>)
    ensures var r := RegisterAll(t, batch);
      |t.hostCalls| <= |r.hostCalls| && r.hostCalls[..|t.hostCalls|] == t.hostCalls &&
      CalledRoots(r.hostCalls[|t.hostCalls|..]) == Roots(batch) - t.registered &&
      CalledOnce(r.hostCalls[|t.hostCalls|..]) &&
      forall k :: |t.hostCalls| <= k < |r.hostCalls| ==> IsLower(r.hostCalls[k].name)
    ensures var r := RegisterAll(t, batch);
      forall k :: |t.hostCalls| <= k < |r.hostCalls| ==>
        exists i :: FirstCarrier(batch, i, r.hostCalls[k].root) && r.hostCalls[k].name == Lower(batch[i].name)
  {
    RegisterAllCallAliases(t, batch);
    NewCallRoots(t, batch);
    NewCallsOnce(t, batch);
    NewCallNamesLower(t, batch);
  }

  lemma NewCallNamesLower<R>(t: Table<R>, batch: seq<Entry<R>>)
    ensures var r := RegisterAll(t, batch);
      forall k :: |t.hostCalls| <= k < |r.hostCalls| ==> IsLower(r.hostCalls[k].name)
  {
  }

  /** The registrar calls a batch adds to the log. */
  function NewCalls<R>(t: Table<R>, batch: seq<Entry<R>>): seq<HostCall<R>>
  {
    RegisterAll(t, batch).hostCalls[|t.hostCalls|..]
  }

  lemma NewCallsSnoc<R>(t: Table<R>, batch: seq<Entry<R>>)
    requires |batch| > 0
    ensures var e := batch[|batch| - 1];
      var t' := RegisterAll(t, batch[..|batch| - 1]);
      NewCalls(t, batch) == NewCalls(t, batch[..|batch| - 1]) +
        if e.root in t'.registered then [] else [HostCall(Lower(e.name), e.root)]
  {
  }

  lemma {:induction false} NewCallRoots<R>(t: Table<R>, batch: seq<Entry<R>>)
    ensures CalledRoots(NewCalls(t, batch)) == Roots(batch) - t.registered
  {
    if |batch| > 0 {
      var b', e := batch[..|batch| - 1], batch[|batch| - 1];
      NewCallRoots(t, b');
      NewCallsSnoc(t, batch);
      RegisterAllFlags(t, b');
      BatchSnoc(batch);
      if e.root !in RegisterAll(t, b').registered {
        CalledRootsSnoc(NewCalls(t, b'), HostCall(Lower(e.name), e.root));
      }
    }
  }

  lemma {:induction false} NewCallsOnce<R>(t: Table<R>, batch: seq<Entry<R>>)
    ensures CalledOnce(NewCalls(t, batch))
  {
    if |batch| > 0 {
      var b', e := batch[..|batch| - 1], batch[|batch| - 1];
      NewCallsOnce(t, b');
      NewCallsSnoc(t, batch);
      if e.root !in RegisterAll(t, b').registered {
        NewCallRoots(t, b');
        RegisterAllFlags(t, b');
        var prior := NewCalls(t, b');
        forall i | 0 <= i < |prior|
          ensures prior[i].root != e.root
        {
          assert prior[i].root in CalledRoots(prior);
        }
      }
    }
  }

  /** Each new registrar call carries the lowercased name of the first batch entry
      that carries its root. */
  lemma {:induction false} RegisterAllCallAliases<R>(t: Table<R>, batch: seq<Entry<R>>)
    ensures var r := RegisterAll(t, batch);
      forall k :: |t.hostCalls| <= k < |r.hostCalls| ==>
        exists i :: FirstCarrier(batch, i, r.hostCalls[k].root) && r.hostCalls[k].name == Lower(batch[i].name)
  {
    if |batch| > 0 {
      var n := |batch| - 1;
      var b', e := batch[..n], batch[n];
      var t' := RegisterAll(t, b');
      var r := RegisterAll(t, batch);
      RegisterAllCallAliases(t, b');
      RegisterAllFlags(t, b');
      forall k | |t.hostCalls| <= k < |r.hostCalls|
        ensures exists i :: FirstCarrier(batch, i, r.hostCalls[k].root) && r.hostCalls[k].name == Lower(batch[i].name)
      {
        if k < |t'.hostCalls| {
          assert r.hostCalls[k] == t'.hostCalls[k];
          var i :| FirstCarrier(b', i, t'.hostCalls[k].root) && t'.hostCalls[k].name == Lower(b'[i].name);
          assert batch[i] == b'[i];
          assert forall j :: 0 <= j < i ==> batch[j] == b'[j];
          assert FirstCarrier(batch, i, r.hostCalls[k].root);
        } else {
          assert e.root !in t'.registered;
          assert r.hostCalls[k] == HostCall(Lower(e.name), e.root);
          forall j | 0 <= j < n
            ensures batch[j].root != e.root
          {
            assert batch[j] == b'[j];
            assert b'[j].root in Roots(b');
          }
          assert FirstCarrier(batch, n, e.root);
        }
      }
    }
  }

  /** A calls log in which no root appears twice keeps that property across a
      batch, provided every root of the batch already called is flagged: the host
      registrar is invoked at most once per root-command object. The roots called
      afterwards are the ones called before and the batch's unflagged ones. */
  lemma {:induction false} RegisterAllCallsOnce<R>(t: Table<R>, batch: seq<Entry<R>>)
    requires CalledOnce(t.hostCalls)
    requires forall r :: r in CalledRoots(t.hostCalls) && r in Roots(batch) ==> r in t.registered
    ensures CalledOnce(RegisterAll(t, batch).hostCalls)
    ensures CalledRoots(RegisterAll(t, batch).hostCalls) == CalledRoots(t.hostCalls) + (Roots(batch) - t.registered)
  {
    NewCallRoots(t, batch);
    NewCallsOnce(t, batch);
    var r := RegisterAll(t, batch);
    var n := |t.hostCalls|;
    var added := r.hostCalls[n..];
    assert r.hostCalls == t.hostCalls + added;
    forall i, j | 0 <= i < j < |r.hostCalls|
      ensures r.hostCalls[i].root != r.hostCalls[j].root
    {
      if j >= n {
        assert r.hostCalls[j] == added[j - n];
        assert r.hostCalls[j].root in CalledRoots(added);
        if i < n {
          assert r.hostCalls[i] == t.hostCalls[i];
          assert r.hostCalls[i].root in CalledRoots(t.hostCalls);
        } else {
          assert r.hostCalls[i] == added[i - n];
        }
      }
    }
    CalledRootsAppend(t.hostCalls, added);
  }

  /** Every name the host registrar receives is lowercase. */
  lemma {:induction false} RegisterAllCallNamesLower<R>(t: Table<R>, batch: seq<Entry<R>>)
    requires forall k :: 0 <= k < |t.hostCalls| ==> IsLower(t.hostCalls[k].name)
    ensures var calls := RegisterAll(t, batch).hostCalls;
      forall k :: 0 <= k < |calls| ==> IsLower(calls[k].name)
  {
    NewCallNamesLower(t, batch);
    var calls := RegisterAll(t, batch).hostCalls;
    forall k | 0 <= k < |calls|
      ensures IsLower(calls[k].name)
    {
      if k < |t.hostCalls| {
        assert calls[k] == calls[..|t.hostCalls|][k];
      } else {
        assert |t.hostCalls| <= k < |RegisterAll(t, batch).hostCalls|;
      }
    }
  }

  /** What the manager's invariant needs of one registration: keys and aliases
      stay lowercase, no root is called twice, every new root is one of the batch,
      and the batch's roots are all flagged afterwards. */
  lemma RegisterAllKeepsInvariant<R>(t: Table<R>, batch: seq<Entry<R>>)
    requires KeysLower(t.commands)
    requires forall k :: 0 <= k < |t.hostCalls| ==> IsLower(t.hostCalls[k].name)
    requires CalledOnce(t.hostCalls)
    requires forall r :: r in CalledRoots(t.hostCalls) && r in Roots(batch) ==> r in t.registered
    ensures var r := RegisterAll(t, batch);
      && KeysLower(r.commands)
      && (forall k :: 0 <= k < |r.hostCalls| ==> IsLower(r.hostCalls[k].name))
      && CalledOnce(r.hostCalls)
      && CalledRoots(r.hostCalls) <= CalledRoots(t.hostCalls) + Roots(batch)
      && r.commands.Values <= t.commands.Values + Roots(batch)
      && r.registered == t.registered + Roots(batch)
  {
    RegisterAllKeysLower(t, batch);
    RegisterAllCallNamesLower(t, batch);
    RegisterAllCallsOnce(t, batch);
    RegisterAllValues(t, batch);
    RegisterAllFlags(t, batch);
  }

  /** Registering roots that are all flagged already makes no host call, yet still refreshes the map. */
  lemma {:induction false} RegisterAllAlreadyRegistered<R>(t: Table<R>, batch: seq<Entry<R>>)
    requires Roots(batch) <= t.registered
    ensures RegisterAll(t, batch).hostCalls == t.hostCalls
    ensures RegisterAll(t, batch).commands == t.commands + BatchMap(batch)
  {
    NewCallRoots(t, batch);
    NewCallsOnce(t, batch);
    RegisterAllCommands(t, batch);
    var r := RegisterAll(t, batch);
    var n := |t.hostCalls|;
    CalledRootsEmpty(r.hostCalls[n..]);
    assert r.hostCalls == r.hostCalls[..n] + r.hostCalls[n..];
  }

  /** Registering the same batch twice is the same as registering it once. */
  lemma {:induction false} RegisterAllTwice<R>(t: Table<R>, batch: seq<Entry<R>>)
    ensures RegisterAll(RegisterAll(t, batch), batch) == RegisterAll(t, batch)
  {
    var once := RegisterAll(t, batch);
    RegisterAllFlags(t, batch);
    RegisterAllFlags(once, batch);
    RegisterAllAlreadyRegistered(once, batch);
    RegisterAllCommands(t, batch);
    var m, b := t.commands, BatchMap(batch);
    assert (m + b) + b == m + b;
  }

  /** A non-empty batch leaves the table non-empty. */
  lemma {:induction false} RegisterAllNonEmpty<R>(t: Table<R>, batch: seq<Entry<R>>)
    requires |batch| > 0
    ensures |RegisterAll(t, batch).commands| > 0
  {
    RegisterAllKeys(t, batch);
    assert Lower(batch[0].name) in RegisterAll(t, batch).commands;
  }

  /** Registering "Foo" stores it under "foo" only. */
  lemma RegisterMixedCaseExample<R>(r: R)
    ensures RegisterAll(Table(map[], {}, []), [Entry("Foo", r)]).commands == map["foo" := r]
  {
    assert Lower("Foo") == "foo";
  }
}
