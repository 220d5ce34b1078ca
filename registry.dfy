/**
  The subscriber registry: an ordered list of channel handles, appended to
  when a stream connects and spliced when it disconnects.
 */
module Registry {

  /** A subscriber's channel, by identity; `Nil` is the nil channel. */
  datatype Handle = Nil | Chan(id: nat)

  /** No handle is listed twice. */
  predicate NoDup(s: seq<Handle>) {
    forall i, j :: 0 <= i < j < |s| ==> s[i] != s[j]
  }

  /** `s` with its first entry identical to `h` spliced out; `s` itself when there is none. */
  function RemoveFirst(s: seq<Handle>, h: Handle): seq<Handle> {
    if s == [] then []
    else if s[0] == h then s[1..]
    else [s[0]] + RemoveFirst(s[1..], h)
  }

  /** Unregistering a handle that is not listed leaves the registry as it is. */
  lemma {:induction false} RemoveFirstAbsent(s: seq<Handle>, h: Handle)
    requires h !in s
    ensures RemoveFirst(s, h) == s
  {
    if s != [] {
      RemoveFirstAbsent(s[1..], h);
    }
  }

  /** When the first entry identical to `h` is at `i`, exactly that entry is
      spliced out and the others keep their order. */
  lemma {:induction false} RemoveFirstAt(s: seq<Handle>, h: Handle, i: nat)
    requires i < |s| && s[i] == h && h !in s[..i]
    ensures RemoveFirst(s, h) == s[..i] + s[i + 1..]
  {
    if i > 0 {
      assert s[0] == s[..i][0];
      assert s[1..][..i - 1] == s[1..i];
      RemoveFirstAt(s[1..], h, i - 1);
      assert s[..i] == [s[0]] + s[1..i];
      assert s[1..][i..] == s[i + 1..];
    }
  }

  /** Exactly one entry identical to `h` goes, if any is there; nothing else changes count. */
  lemma {:induction false} RemoveFirstCount(s: seq<Handle>, h: Handle)
    ensures multiset(RemoveFirst(s, h)) == multiset(s) - multiset{h}
    ensures |RemoveFirst(s, h)| == if h in s then |s| - 1 else |s|
  {
    if s != [] {
      assert s == [s[0]] + s[1..];
      if s[0] != h {
        RemoveFirstCount(s[1..], h);
      }
    }
  }

  /** Under the at-most-once invariant, unregistering removes `h` completely,
      keeps every other handle, and keeps the invariant. */
  lemma {:induction false} RemoveFirstNoDup(s: seq<Handle>, h: Handle)
    requires NoDup(s)
    ensures NoDup(RemoveFirst(s, h))
    ensures forall x :: x in RemoveFirst(s, h) <==> x in s && x != h
  {
    if s != [] {
      assert NoDup(s[1..]) by {
        forall i, j | 0 <= i < j < |s[1..]| ensures s[1..][i] != s[1..][j] {
          assert s[1..][i] == s[i + 1] && s[1..][j] == s[j + 1];
        }
      }
      assert s[0] !in s[1..] by {
        forall k | 0 <= k < |s[1..]| ensures s[1..][k] != s[0] {
          assert s[1..][k] == s[k + 1];
        }
      }
      if s[0] != h {
        RemoveFirstNoDup(s[1..], h);
        var r := [s[0]] + RemoveFirst(s[1..], h);
        forall i, j | 0 <= i < j < |r| ensures r[i] != r[j] {
          if i == 0 {
            assert r[j] in RemoveFirst(s[1..], h);
          } else {
            assert r[i] == RemoveFirst(s[1..], h)[i - 1] && r[j] == RemoveFirst(s[1..], h)[j - 1];
          }
        }
      }
    }
  }

  /** A second unregister of the same handle is a no-op. */
  lemma UnregisterTwice(s: seq<Handle>, h: Handle)
    requires NoDup(s)
    ensures RemoveFirst(RemoveFirst(s, h), h) == RemoveFirst(s, h)
  {
    RemoveFirstNoDup(s, h);
    RemoveFirstAbsent(RemoveFirst(s, h), h);
  }

  /** Registering a handle not yet listed and then unregistering it restores the registry. */
  lemma RegisterUnregister(s: seq<Handle>, h: Handle)
    requires h !in s
    ensures RemoveFirst(s + [h], h) == s
  {
    var t := s + [h];
    assert t[..|s|] == s && t[|s| + 1..] == [];
    RemoveFirstAt(t, h, |s|);
  }

  /** Appending a handle not yet listed keeps the at-most-once invariant. */
  lemma RegisterNoDup(s: seq<Handle>, h: Handle)
    requires NoDup(s) && h !in s
    ensures NoDup(s + [h])
  {
  }
}
