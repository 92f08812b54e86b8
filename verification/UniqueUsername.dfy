/**
 Naming a new gateway account: the base name, then `base_2`, `base_3` and so on, up to suffix 1000.
 */
module UniqueUsername {
  import opened Texts
  import opened Wrappers

  const MAX_SUFFIX: nat := 1000

  function Candidate(base: string, suffix: nat): string {
    if suffix == 1 then base else base + "_" + Decimal(suffix)
  }

  /** The thousand candidates of one base are a thousand different names. */
  lemma CandidatesDiffer(base: string, j: nat, k: nat)
    requires 1 <= j && 1 <= k && Candidate(base, j) == Candidate(base, k)
    ensures j == k
  {
    if j != 1 && k != 1 {
      assert Decimal(j) == Candidate(base, j)[|base| + 1..];
      assert Decimal(k) == Candidate(base, k)[|base| + 1..];
      DecimalValue(j);
      DecimalValue(k);
    }
  }

  /** The first candidate is the base itself, then come the numbers from 2. */
  lemma CandidateTexts(base: string)
    ensures Candidate(base, 1) == base && Candidate(base, 2) == base + "_2" && Candidate(base, 1000) == base + "_1000"
  {
    assert Decimal(10) == Decimal(1) + "0" && Decimal(100) == Decimal(10) + "0";
    assert Decimal(1) == "1" && Decimal(2) == "2" && Decimal(1000) == Decimal(100) + "0";
  }

  /** The users table seen through its unique index on the name. */
  class UserTable {
    var byName: map<string, int>
    var nextId: int

    constructor ()
      ensures byName == map[]
    {
      byName, nextId := map[], 1;
    }

    /** `None` is the unique violation on the name. */
    method CreateUser(name: string) returns (id: Option<int>)
      modifies this
      ensures id.None? <==> name in old(byName)
      ensures byName == if id.None? then old(byName) else old(byName)[name := id.value]
      ensures id.None? ==> nextId == old(nextId)
      ensures id.Some? ==> id.value == old(nextId) && nextId == old(nextId) + 1
    {
      if name in byName {
        return None;
      }
      id := Some(nextId);
      byName := byName[name := nextId];
      nextId := nextId + 1;
    }

    /**
     Takes the first free candidate, and gives up ("username exhausted") exactly when all of them are taken.
     */
    method CreateUserWithUniqueUsername(base: string) returns (id: Option<int>, ghost suffix: nat)
      modifies this
      ensures id.None? <==> forall k | 1 <= k <= MAX_SUFFIX :: Candidate(base, k) in old(byName)
      ensures id.None? ==> byName == old(byName)
      ensures id.Some? ==>
                && 1 <= suffix <= MAX_SUFFIX && Candidate(base, suffix) !in old(byName)
                && (forall k | 1 <= k < suffix :: Candidate(base, k) in old(byName))
                && id.value == old(nextId) && byName == old(byName)[Candidate(base, suffix) := id.value]
    {
      suffix := 1;
      var next: nat := 1;
      while true
        invariant 1 <= next <= MAX_SUFFIX && byName == old(byName) && nextId == old(nextId)
        invariant forall k | 1 <= k < next :: Candidate(base, k) in byName
        decreases MAX_SUFFIX - next
      {
        var candidate := Candidate(base, next);
        if candidate !in byName {
          id := CreateUser(candidate);
          if id.Some? {
            suffix := next;
            return;
          }
        }
        next := next + 1;
        if next > MAX_SUFFIX {
          id := None;
          return;
        }
      }
    }
  }
}
