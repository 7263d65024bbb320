// The server's choice of a cipher suite among the client's and its own.
module CipherChoice {
  import opened Results

  datatype Cipher = Cipher(id: nat, minVersion: nat, maxVersion: nat, mkey: bv32, auth: bv32)

  // The protocol version and the key exchange and authentication masks of the handshake.
  datatype Config = Config(version: nat, maskK: bv32, maskA: bv32)

  // ssl_cipher_preference_list_st
  datatype Preferences = Preferences(ciphers: seq<Cipher>, inGroupFlags: Option<seq<nat>>)

  // The flags are 1 inside a group and 0 at the last element of each group.
  ghost predicate WellFormed(p: Preferences) {
    p.inGroupFlags.Some? ==>
      var flags := p.inGroupFlags.value;
      && |flags| == |p.ciphers| && (forall f <- flags :: f <= 1)
      && (flags != [] ==> flags[|flags| - 1] == 0)
  }

  predicate Usable(c: Cipher, cfg: Config) {
    c.minVersion <= cfg.version <= c.maxVersion && c.mkey & cfg.maskK != 0 && c.auth & cfg.maskA != 0
  }

  // sk_SSL_CIPHER_find: the first index of a cipher, or the length.
  function Find(ciphers: seq<Cipher>, c: Cipher): (k: nat)
    ensures k <= |ciphers|
    ensures k < |ciphers| ==> ciphers[k] == c
    ensures forall j :: 0 <= j < k ==> ciphers[j] != c
    ensures k < |ciphers| <==> c in ciphers
  {
    if ciphers == [] then 0
    else if ciphers[0] == c then 0
    else 1 + Find(ciphers[1..], c)
  }

  // The group of an element of the list that sets the priority: the number of group ends before it.
  function Group(flags: Option<seq<nat>>, i: nat): (g: nat) {
    if i == 0 then 0
    else if flags.Some? && i <= |flags.value| && flags.value[i - 1] == 1 then Group(flags, i - 1)
    else Group(flags, i - 1) + 1
  }

  lemma {:induction false} GroupMonotone(flags: Option<seq<nat>>, i: nat, j: nat)
    requires i <= j
    ensures Group(flags, i) <= Group(flags, j)
    decreases j
  {
    if i < j {
      GroupMonotone(flags, i, j - 1);
    }
  }

  // After the end of a group come later groups.
  lemma LaterGroup(flags: Option<seq<nat>>, i: nat, j: nat)
    requires i < j && (flags.None? || (i < |flags.value| && flags.value[i] != 1))
    ensures Group(flags, i) < Group(flags, j)
  {
    assert Group(flags, i + 1) == Group(flags, i) + 1;
    GroupMonotone(flags, i + 1, j);
  }

  // A candidate: usable, and known to both sides.
  ghost predicate Shared(prio: seq<Cipher>, allow: seq<Cipher>, cfg: Config, i: nat) {
    i < |prio| && Usable(prio[i], cfg) && prio[i] in allow
  }

  // The best candidate: none is in an earlier group, and none of its own group comes earlier in
  // the other list.
  ghost predicate Best(prio: seq<Cipher>, flags: Option<seq<nat>>, allow: seq<Cipher>, cfg: Config, i: nat) {
    && Shared(prio, allow, cfg, i)
    && forall j: nat :: Shared(prio, allow, cfg, j) ==>
         || Group(flags, i) < Group(flags, j)
         || (Group(flags, i) == Group(flags, j) && Find(allow, prio[i]) <= Find(allow, prio[j]))
  }

  // At most one cipher is the best.
  lemma BestUnique(prio: seq<Cipher>, flags: Option<seq<nat>>, allow: seq<Cipher>, cfg: Config, i: nat, j: nat)
    requires Best(prio, flags, allow, cfg, i) && Best(prio, flags, allow, cfg, j)
    ensures prio[i] == prio[j]
  {
    assert Find(allow, prio[i]) == Find(allow, prio[j]);
  }

  // Without flags every element is a group of its own, so that the best is the first candidate.
  lemma {:induction false} NoGroups(i: nat)
    ensures Group(None, i) == i
  {
    if i > 0 {
      NoGroups(i - 1);
    }
  }

  // The group of an element goes on behind it.
  predicate GoesOn(flags: Option<seq<nat>>, k: nat) {
    flags.Some? && k < |flags.value| && flags.value[k] == 1
  }

  // Two elements are in one group if and only if it goes on from the first to the second.
  lemma {:induction false} SameGroup(flags: Option<seq<nat>>, i: nat, j: nat)
    requires i <= j
    ensures Group(flags, i) == Group(flags, j) <==> forall k: nat | i <= k < j :: GoesOn(flags, k)
    decreases j
  {
    if i < j {
      SameGroup(flags, i, j - 1);
      GroupMonotone(flags, i, j - 1);
      assert GoesOn(flags, j - 1) <==> Group(flags, j) == Group(flags, j - 1);
    }
  }

  lemma FirstShared(prio: seq<Cipher>, allow: seq<Cipher>, cfg: Config, i: nat)
    ensures Best(prio, None, allow, cfg, i) <==>
              Shared(prio, allow, cfg, i) && forall j: nat :: j < i ==> !Shared(prio, allow, cfg, j)
  {
    forall j: nat
      ensures Group(None, j) == j
    {
      NoGroups(j);
    }
    if Best(prio, None, allow, cfg, i) {
      forall j: nat | j < i
        ensures !Shared(prio, allow, cfg, j)
      {
        assert Shared(prio, allow, cfg, j) ==> Group(None, i) <= Group(None, j);
      }
    }
    if Shared(prio, allow, cfg, i) && forall j: nat :: j < i ==> !Shared(prio, allow, cfg, j) {
      forall j: nat | Shared(prio, allow, cfg, j)
        ensures Group(None, i) < Group(None, j) || (Group(None, i) == Group(None, j) && Find(allow, prio[i]) <= Find(allow, prio[j]))
      {
      }
    }
  }

  lemma SharedIff(prio: seq<Cipher>, allow: seq<Cipher>, cfg: Config, i: nat)
    requires i < |prio|
    ensures Shared(prio, allow, cfg, i) <==> Usable(prio[i], cfg) && Find(allow, prio[i]) < |allow|
  {
  }

  // The candidates before element n are all in the group g.
  ghost predicate OneGroup(prio: seq<Cipher>, flags: Option<seq<nat>>, allow: seq<Cipher>, cfg: Config, n: nat, g: nat) {
    forall j: nat :: j < n && Shared(prio, allow, cfg, j) ==> Group(flags, j) == g
  }

  // The least index in the other list of the candidates before element n, or -1.
  ghost predicate Least(prio: seq<Cipher>, allow: seq<Cipher>, cfg: Config, n: nat, min: int) {
    && (forall j: nat :: j < n && Shared(prio, allow, cfg, j) ==> 0 <= min <= Find(allow, prio[j]))
    && (min == -1 || exists k: nat :: k < n && Shared(prio, allow, cfg, k) && Find(allow, prio[k]) == min)
  }

  // The candidate i taken into account.
  lemma LeastTakes(prio: seq<Cipher>, allow: seq<Cipher>, cfg: Config, i: nat, min: int)
    requires Least(prio, allow, cfg, i, min) && Shared(prio, allow, cfg, i)
    ensures var index := Find(allow, prio[i]);
            Least(prio, allow, cfg, i + 1, if min == -1 || min > index then index else min)
  {
    var index := Find(allow, prio[i]);
    hide Shared, Find;
    var next := if min == -1 || min > index then index else min;
    forall j: nat | j < i + 1 && Shared(prio, allow, cfg, j)
      ensures 0 <= next <= Find(allow, prio[j])
    {
      if j < i {
        assert 0 <= min <= Find(allow, prio[j]);
      }
    }
  }

  lemma LeastSkips(prio: seq<Cipher>, allow: seq<Cipher>, cfg: Config, i: nat, min: int)
    requires Least(prio, allow, cfg, i, min) && !Shared(prio, allow, cfg, i)
    ensures Least(prio, allow, cfg, i + 1, min)
  {
    hide Shared, Find;
  }

  // The least candidate of a group that ends at i is the best of all.
  lemma LeastIsBest(prio: seq<Cipher>, flags: Option<seq<nat>>, allow: seq<Cipher>, cfg: Config, i: nat, min: int)
    requires flags.None? || (i < |flags.value| && flags.value[i] != 1)
    requires OneGroup(prio, flags, allow, cfg, i + 1, Group(flags, i)) && Least(prio, allow, cfg, i + 1, min) && min != -1
    ensures 0 <= min < |allow|
    ensures exists k: nat :: Best(prio, flags, allow, cfg, k) && prio[k] == allow[min]
  {
    var k: nat :| k < i + 1 && Shared(prio, allow, cfg, k) && Find(allow, prio[k]) == min;
    assert min < |allow| && prio[k] == allow[min];
    forall j: nat | Shared(prio, allow, cfg, j)
      ensures Group(flags, k) < Group(flags, j) || (Group(flags, k) == Group(flags, j) && Find(allow, prio[k]) <= Find(allow, prio[j]))
    {
      hide Shared, Find, Group;
      if j > i {
        LaterGroup(flags, i, j);
      }
    }
    hide Shared, Find, Group;
    assert Best(prio, flags, allow, cfg, k);
  }

  lemma ThisGroup(prio: seq<Cipher>, flags: Option<seq<nat>>, allow: seq<Cipher>, cfg: Config, i: nat)
    requires OneGroup(prio, flags, allow, cfg, i, Group(flags, i))
    ensures OneGroup(prio, flags, allow, cfg, i + 1, Group(flags, i))
  {
    hide Shared;
  }

  // Going on to the next element: inside a group, or past a group without a candidate.
  lemma NextElement(prio: seq<Cipher>, flags: Option<seq<nat>>, allow: seq<Cipher>, cfg: Config, i: nat, min: int)
    requires OneGroup(prio, flags, allow, cfg, i, Group(flags, i)) && Least(prio, allow, cfg, i + 1, min)
    requires (flags.Some? && i < |flags.value| && flags.value[i] == 1) || min == -1
    ensures OneGroup(prio, flags, allow, cfg, i + 1, Group(flags, i + 1))
  {
    hide Shared, Find;
  }

  // Both sides know the cipher, it is of the version, and the masks leave it a key exchange and an
  // authentication.
  predicate Agreeable(c: Cipher, client: seq<Cipher>, server: seq<Cipher>, cfg: Config) {
    && c in client && c in server
    && c.minVersion <= cfg.version && cfg.version <= c.maxVersion
    && c.mkey & cfg.maskK != 0 && c.auth & cfg.maskA != 0
  }

  // ssl3_choose_cipher
  method ChooseCipher(serverPreference: bool, client: seq<Cipher>, server: Preferences, cfg: Config)
    returns (r: Option<Cipher>)
    requires WellFormed(server)
    ensures serverPreference ==>
              if r.Some? then exists i: nat :: Best(server.ciphers, server.inGroupFlags, client, cfg, i) && server.ciphers[i] == r.value
              else forall i: nat :: !Shared(server.ciphers, client, cfg, i)
    ensures !serverPreference ==>
              if r.Some? then exists i: nat :: Best(client, None, server.ciphers, cfg, i) && client[i] == r.value
              else forall i: nat :: !Shared(client, server.ciphers, cfg, i)
    ensures r.Some? ==> Agreeable(r.value, client, server.ciphers, cfg)
    ensures r.None? ==> forall c :: !Agreeable(c, client, server.ciphers, cfg)
  {
    var prio, flags, allow := client, None, server.ciphers;
    if serverPreference {
      prio, flags, allow := server.ciphers, server.inGroupFlags, client;
    }
    r := Scan(prio, flags, allow, cfg);
    if r.None? {
      forall c
        ensures !Agreeable(c, client, server.ciphers, cfg)
      {
        if c in prio {
          var i: nat :| i < |prio| && prio[i] == c;
          assert !Shared(prio, allow, cfg, i);
        }
      }
    }
  }

  // The loop of ssl3_choose_cipher.
  method Scan(prio: seq<Cipher>, flags: Option<seq<nat>>, allow: seq<Cipher>, cfg: Config)
    returns (r: Option<Cipher>)
    requires WellFormed(Preferences(prio, flags))
    ensures r.Some? ==> exists i: nat :: Best(prio, flags, allow, cfg, i) && prio[i] == r.value
    ensures r.None? ==> forall i: nat :: !Shared(prio, allow, cfg, i)
  {
    var groupMin := -1;
    for i := 0 to |prio|
      invariant OneGroup(prio, flags, allow, cfg, i, Group(flags, i)) && Least(prio, allow, cfg, i, groupMin)
      invariant (flags.None? || i == 0) ==> groupMin == -1
      invariant i > 0 && (flags.None? || flags.value[i - 1] == 0) ==> groupMin == -1
    {
      hide Shared, OneGroup, Least, Best, Group;
      var c := prio[i];
      var index := Find(allow, c);
      SharedIff(prio, allow, cfg, i);
      if Usable(c, cfg) && index < |allow| {
        LeastTakes(prio, allow, cfg, i, groupMin);
        if flags.Some? && flags.value[i] == 1 {
          if groupMin == -1 || groupMin > index {
            groupMin := index;
          }
        } else {
          if groupMin != -1 && groupMin < index {
            index := groupMin;
          }
          ThisGroup(prio, flags, allow, cfg, i);
          LeastIsBest(prio, flags, allow, cfg, i, index);
          return Some(allow[index]);
        }
      } else {
        LeastSkips(prio, allow, cfg, i, groupMin);
      }
      if flags.Some? && flags.value[i] == 0 && groupMin != -1 {
        ThisGroup(prio, flags, allow, cfg, i);
        LeastIsBest(prio, flags, allow, cfg, i, groupMin);
        return Some(allow[groupMin]);
      }
      assert flags.Some? ==> flags.value[i] in flags.value;
      NextElement(prio, flags, allow, cfg, i, groupMin);
    }
    return None;
  }
}
