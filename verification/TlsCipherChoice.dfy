/** The server's choice of a cipher suite, with equal-preference groups. */
module TlsCipherChoice {
  import opened Prelude

  type Cipher = nat

  /** A cipher that the version and the server's configuration support, and that the other side lists. */
  predicate Acceptable(ok: Cipher -> bool, allow: seq<Cipher>, c: Cipher) {
    ok(c) && c in allow
  }

  /** The place where a cipher is first listed. */
  function FirstIndex(s: seq<Cipher>, c: Cipher): (i: nat)
    requires c in s
    ensures i < |s| && s[i] == c
    ensures forall j :: 0 <= j < i ==> s[j] != c
  {
    if s[0] == c then 0 else FirstIndex(s[1..], c) + 1
  }

  /** 1 for a cipher that is not the last of its group; without flags every cipher is a group of its own. */
  function Flag(flags: Option<seq<u8>>, k: nat): u8
    requires flags.Some? ==> k < |flags.value|
  {
    match flags case None => 0 case Some(f) => f[k]
  }

  predicate ValidFlags(flags: Option<seq<u8>>, n: nat) {
    flags.Some? ==> |flags.value| == n && forall k :: 0 <= k < n ==> flags.value[k] == 0 || flags.value[k] == 1
  }

  /** A group ends between the two places. */
  predicate GroupEnds(flags: Option<seq<u8>>, i: nat, j: nat)
    requires flags.Some? ==> j <= |flags.value|
  {
    exists k :: i <= k < j && Flag(flags, k) == 0
  }

  /**
   Place `i` of the list `prio` is the best choice: every other acceptable cipher is in a later group, or in
   the same group and not before it in the other side's list.
   */
  predicate Best(prio: seq<Cipher>, flags: Option<seq<u8>>, allow: seq<Cipher>, ok: Cipher -> bool, i: nat)
    requires ValidFlags(flags, |prio|) && i < |prio|
  {
    && Acceptable(ok, allow, prio[i])
    && forall j :: 0 <= j < |prio| && Acceptable(ok, allow, prio[j]) ==> NotBetter(prio, flags, allow, i, j)
  }

  predicate NotBetter(prio: seq<Cipher>, flags: Option<seq<u8>>, allow: seq<Cipher>, i: nat, j: nat)
    requires ValidFlags(flags, |prio|) && i < |prio| && j < |prio| && prio[i] in allow && prio[j] in allow
  {
    || GroupEnds(flags, i, j)
    || (!GroupEnds(flags, j, i) && FirstIndex(allow, prio[i]) <= FirstIndex(allow, prio[j]))
  }

  method Find(s: seq<Cipher>, c: Cipher) returns (found: bool, i: nat)
    ensures found <==> c in s
    ensures found ==> i == FirstIndex(s, c)
  {
    i := 0;
    while i < |s|
      invariant i <= |s| && forall k :: 0 <= k < i ==> s[k] != c
    {
      if s[i] == c {
        return true, i;
      }
      i := i + 1;
    }
    return false, i;
  }

  /**
   The first group of `prio` with an acceptable cipher decides, and in it the other side's order. Nothing is
   chosen exactly when every acceptable cipher is in a group that never ends: if the last flag is 0, as it
   should be, when there is none.
   */
  method ChooseCipher(prio: seq<Cipher>, flags: Option<seq<u8>>, allow: seq<Cipher>, ok: Cipher -> bool)
    returns (r: Option<Cipher>)
    requires ValidFlags(flags, |prio|)
    ensures r.None? <==> forall i :: 0 <= i < |prio| && Acceptable(ok, allow, prio[i]) ==> !GroupEnds(flags, i, |prio|)
    ensures r.Some? ==> exists i :: 0 <= i < |prio| && Best(prio, flags, allow, ok, i) && r.value == prio[i]
  {
    hide FirstIndex;
    var groupMin: int := -1;
    ghost var best: nat := 0;
    var i := 0;
    while i < |prio|
      invariant 0 <= i <= |prio|
      invariant forall j :: 0 <= j < i && Acceptable(ok, allow, prio[j]) ==>
                  !GroupEnds(flags, j, i) && groupMin != -1 && groupMin <= FirstIndex(allow, prio[j])
      invariant groupMin != -1 ==>
                  && best < i && Acceptable(ok, allow, prio[best])
                  && groupMin == FirstIndex(allow, prio[best]) && flags.Some?
    {
      var c := prio[i];
      if ok(c) {
        var found, index := Find(allow, c);
        if found {
          if flags.Some? && flags.value[i] == 1 {
            if groupMin == -1 || groupMin > index {
              groupMin := index;
              best := i;
            }
          } else {
            best := if groupMin != -1 && groupMin < index then best else i;
            if groupMin != -1 && groupMin < index {
              index := groupMin;
            }
            Decided(prio, flags, allow, ok, best, i);
            return Some(allow[index]);
          }
        }
      }
      if flags.Some? && flags.value[i] == 0 && groupMin != -1 {
        Decided(prio, flags, allow, ok, best, i);
        return Some(allow[groupMin]);
      }
      i := i + 1;
    }
    return None;
  }

  /** At the end of a group, the best of what has been seen is the best of all. */
  lemma Decided(prio: seq<Cipher>, flags: Option<seq<u8>>, allow: seq<Cipher>, ok: Cipher -> bool, best: nat, i: nat)
    requires ValidFlags(flags, |prio|) && best <= i < |prio| && Flag(flags, i) == 0 && Acceptable(ok, allow, prio[best])
    requires forall j :: 0 <= j <= i && Acceptable(ok, allow, prio[j]) ==>
               !GroupEnds(flags, j, i) && FirstIndex(allow, prio[best]) <= FirstIndex(allow, prio[j])
    ensures Best(prio, flags, allow, ok, best)
    ensures GroupEnds(flags, best, |prio|)
  {
    hide FirstIndex;
    forall j | 0 <= j < |prio| && Acceptable(ok, allow, prio[j])
      ensures NotBetter(prio, flags, allow, best, j)
    {
      if j > i {
        assert Flag(flags, i) == 0;
        assert GroupEnds(flags, best, j);
      } else {
        assert !GroupEnds(flags, j, i);
      }
    }
  }

  /** With well-formed groups, there is a choice exactly when some cipher is acceptable. */
  lemma GroupsEnd(flags: Option<seq<u8>>, n: nat)
    requires ValidFlags(flags, n) && n > 0 && Flag(flags, n - 1) == 0
    ensures forall i :: 0 <= i < n ==> GroupEnds(flags, i, n)
  {
  }

  /** A cipher is best in one way only: its place in the other side's list is determined. */
  lemma BestIsUnique(prio: seq<Cipher>, flags: Option<seq<u8>>, allow: seq<Cipher>, ok: Cipher -> bool, i: nat, j: nat)
    requires ValidFlags(flags, |prio|) && i < |prio| && j < |prio|
    requires Best(prio, flags, allow, ok, i) && Best(prio, flags, allow, ok, j)
    ensures prio[i] == prio[j]
  {
    hide FirstIndex;
    assert NotBetter(prio, flags, allow, i, j) && NotBetter(prio, flags, allow, j, i);
    assert FirstIndex(allow, prio[i]) == FirstIndex(allow, prio[j]);
  }

  predicate Shared(server: seq<Cipher>, client: seq<Cipher>, ok: Cipher -> bool, c: Cipher) {
    ok(c) && c in server && c in client
  }

  /**
   The server's choice. With server preference it is the best of the server's groups, by the client's order
   within the group; otherwise it is the shared cipher that the client lists first. There is none exactly
   when no cipher is shared.
   */
  method ServerChoose(preferServer: bool, server: seq<Cipher>, flags: seq<u8>, client: seq<Cipher>, ok: Cipher -> bool)
    returns (r: Option<Cipher>)
    requires ValidFlags(Some(flags), |server|) && (server != [] ==> flags[|server| - 1] == 0)
    ensures r.None? <==> forall c :: c in server ==> !Shared(server, client, ok, c)
    ensures r.Some? ==> Shared(server, client, ok, r.value)
    ensures r.Some? && preferServer ==>
              exists i :: 0 <= i < |server| && Best(server, Some(flags), client, ok, i) && r.value == server[i]
    ensures r.Some? && !preferServer ==>
              forall c :: c in client && Shared(server, client, ok, c) ==> FirstIndex(client, r.value) <= FirstIndex(client, c)
  {
    hide FirstIndex, Best;
    if preferServer {
      r := ChooseCipher(server, Some(flags), client, ok);
      if server != [] {
        GroupsEnd(Some(flags), |server|);
      }
      if r.Some? {
        var i :| 0 <= i < |server| && Best(server, Some(flags), client, ok, i) && r.value == server[i];
        BestIsAcceptable(server, Some(flags), client, ok, i);
      }
      assert forall i :: 0 <= i < |server| && Acceptable(ok, client, server[i]) ==> Shared(server, client, ok, server[i]);
    } else {
      r := ChooseCipher(client, None, server, ok);
      if client != [] {
        GroupsEnd(None, |client|);
      }
      if r.Some? {
        var i :| 0 <= i < |client| && Best(client, None, server, ok, i) && r.value == client[i];
        BestIsFirst(client, server, ok, i);
      }
      assert forall c :: Shared(server, client, ok, c) ==> Acceptable(ok, server, client[FirstIndex(client, c)]);
    }
  }

  lemma BestIsAcceptable(prio: seq<Cipher>, flags: Option<seq<u8>>, allow: seq<Cipher>, ok: Cipher -> bool, i: nat)
    requires ValidFlags(flags, |prio|) && i < |prio| && Best(prio, flags, allow, ok, i)
    ensures Acceptable(ok, allow, prio[i])
  {
  }

  /** Without groups, the best is the acceptable cipher that comes first. */
  lemma BestIsFirst(client: seq<Cipher>, server: seq<Cipher>, ok: Cipher -> bool, i: nat)
    requires i < |client| && Best(client, None, server, ok, i)
    ensures Acceptable(ok, server, client[i])
    ensures forall c :: c in client && Acceptable(ok, server, c) ==> FirstIndex(client, client[i]) <= FirstIndex(client, c)
  {
    hide FirstIndex;
    forall c | c in client && Acceptable(ok, server, c)
      ensures FirstIndex(client, client[i]) <= FirstIndex(client, c)
    {
      var j := FirstIndex(client, c);
      assert NotBetter(client, None, server, i, j);
      assert j < i ==> Flag(None, j) == 0;
      assert i <= j;
    }
  }
}
