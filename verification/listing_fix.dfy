/** The fallback workspace listing: several ways of finding workspace records, tried in
    turn until one yields a non-empty list.

    Key enumeration follows Redis `KEYS`: a pattern also matches the plain string keys (the
    locks) and the list keys (the operation queue), and `HGETALL` on one of those raises a
    wrong-type error, which makes that whole approach raise. */
module ListingFix {
  import opened Results
  import opened Seqs
  import opened Text
  import opened Valkey
  import opened Workspaces
  import Glob

  const WrongType: string := "WRONGTYPE Operation against a key holding the wrong kind of value"
  const BroadPattern: string := "workspaces:*"
  const SubstringPattern: string := "*workspace*"

  /** Some key that is not a hash (a string or a list) is among the keys `keep` selects;
      reading it as a hash raises. */
  predicate WrongTypeAmong(st: Store, keep: string -> bool) {
    (exists k :: k in st.strings && keep(k)) || (exists k :: k in st.lists && keep(k))
  }

  /** The entries for the hash keys in `keys`: every non-empty hash, decoded, with the
      `id` that `idOf` derives from its key. */
  function ListKeys(st: Store, keys: seq<string>, keep: string -> bool, idOf: string -> string): (r: Result<seq<Hash>>)
    ensures r.Err? <==> WrongTypeAmong(st, keep)
    ensures r.Err? ==> r.msg == WrongType
    ensures r.Ok? ==> r.value == Entries(st, keys, idOf)
  {
    if WrongTypeAmong(st, keep) then Err(WrongType) else Ok(Entries(st, keys, idOf))
  }

  /** `_list_by_pattern`: an entry for every matching key whose hash is non-empty; raises if
      the pattern also matches a non-hash key. */
  function ListByPattern(st: Store, pattern: string, idOf: string -> string): (r: Result<seq<Hash>>)
    ensures r.Err? <==> WrongTypeAmong(st, k => Glob.Match(pattern, k))
    ensures r.Ok? ==> |r.value| <= |GlobKeys(st, pattern)|
    ensures r.Ok? ==> forall e :: e in r.value ==>
              exists k :: Glob.Match(pattern, k) && HGetAll(st, k) != map[] && e == Decoded(st, k, idOf(k))
    ensures r.Ok? && Valid(st) ==> forall k :: Glob.Match(pattern, k) && HGetAll(st, k) != map[] ==>
              Decoded(st, k, idOf(k)) in r.value
  {
    var keys := GlobKeys(st, pattern);
    assert forall k :: HGetAll(st, k) != map[] ==> k in st.hashes;
    ListKeys(st, keys, k => Glob.Match(pattern, k), idOf)
  }

  /** When listing the keys succeeds, it holds exactly one entry per key with a non-empty
      hash, in key order. */
  lemma ListKeysOnePerKey(st: Store, keys: seq<string>, keep: string -> bool, idOf: string -> string)
    ensures var r := ListKeys(st, keys, keep, idOf);
            var ks := Filter(keys, HoldsHash(st));
            r.Ok? ==> |r.value| == |ks| && forall i :: 0 <= i < |ks| ==> r.value[i] == Decoded(st, ks[i], idOf(ks[i]))
  {
    EntriesOnePerKey(st, keys, idOf);
  }

  /** When `_list_by_pattern` succeeds, it holds exactly one entry per matched key with a
      non-empty hash, in the order `KEYS` returns them; on a well-formed store no key is
      matched twice. */
  lemma ListByPatternOnePerKey(st: Store, pattern: string, idOf: string -> string)
    ensures var r := ListByPattern(st, pattern, idOf);
            var ks := Filter(GlobKeys(st, pattern), HoldsHash(st));
            && (Valid(st) ==> NoDups(ks))
            && (r.Ok? ==> |r.value| == |ks| && forall i :: 0 <= i < |ks| ==> r.value[i] == Decoded(st, ks[i], idOf(ks[i])))
  {
    ListKeysOnePerKey(st, GlobKeys(st, pattern), k => Glob.Match(pattern, k), idOf);
  }

  /** The filter of `_list_all_and_filter`, as written: "workspace" or "workspaces" occurs
      in the lower-cased key. */
  predicate WorkspaceRelated(k: string) {
    Contains(Lower(k), "workspace") || Contains(Lower(k), "workspaces")
  }

  /** The second test of the filter never decides anything: every key containing
      "workspaces" contains "workspace". */
  lemma WorkspaceRelatedIsOneSubstring(k: string)
    ensures WorkspaceRelated(k) <==> Contains(Lower(k), "workspace")
  {
    if Contains(Lower(k), "workspaces") {
      var i :| 0 <= i <= |Lower(k)| - 10 && OccursAt(Lower(k), "workspaces", i);
      assert Lower(k)[i..i + 9] == Lower(k)[i..i + 10][..9];
      ContainsWitness(Lower(k), "workspace", i);
    }
  }

  /** `_list_all_and_filter`: an entry for every workspace-related key whose hash is
      non-empty; raises if a related key is not a hash. */
  function ListAllAndFilter(st: Store, idOf: string -> string): (r: Result<seq<Hash>>)
    ensures r.Err? <==> WrongTypeAmong(st, WorkspaceRelated)
    ensures r.Ok? ==> forall e :: e in r.value ==>
              exists k :: WorkspaceRelated(k) && HGetAll(st, k) != map[] && e == Decoded(st, k, idOf(k))
    ensures r.Ok? && Valid(st) ==> forall k :: WorkspaceRelated(k) && HGetAll(st, k) != map[] ==>
              Decoded(st, k, idOf(k)) in r.value
  {
    var keys := Filter(GlobKeys(st, "*"), WorkspaceRelated);
    assert forall k :: HGetAll(st, k) != map[] ==> k in st.hashes;
    forall k | Valid(st) && WorkspaceRelated(k) && HGetAll(st, k) != map[]
      ensures k in keys
    {
      Glob.MatchStar(k);
    }
    ListKeys(st, keys, WorkspaceRelated, idOf)
  }

  /** The approach loop of `fix_workspace_listing`: the first outcome that is a non-empty
      list; raising and empty outcomes are passed over; `[]` when none qualifies. */
  function FirstNonEmpty(outcomes: seq<Result<seq<Hash>>>): (r: seq<Hash>)
    ensures r == [] <==> forall i :: 0 <= i < |outcomes| ==> !Usable(outcomes[i])
    ensures r != [] ==> exists i :: 0 <= i < |outcomes| && outcomes[i] == Ok(r) &&
                          forall j :: 0 <= j < i ==> !Usable(outcomes[j])
  {
    if |outcomes| == 0 then []
    else if Usable(outcomes[0]) then outcomes[0].value
    else
      var r := FirstNonEmpty(outcomes[1..]);
      assert forall i :: 1 <= i < |outcomes| ==> outcomes[i] == outcomes[1..][i - 1];
      if r != [] then FoundLater(outcomes, r); r else r
  }

  /** A non-empty list found past an unusable head is found in the whole sequence, one
      position later. */
  lemma FoundLater(outcomes: seq<Result<seq<Hash>>>, r: seq<Hash>)
    requires |outcomes| > 0 && !Usable(outcomes[0])
    requires exists i :: 0 <= i < |outcomes[1..]| && outcomes[1..][i] == Ok(r) &&
               forall j :: 0 <= j < i ==> !Usable(outcomes[1..][j])
    ensures exists i :: 0 <= i < |outcomes| && outcomes[i] == Ok(r) &&
              forall j :: 0 <= j < i ==> !Usable(outcomes[j])
  {
    var i :| 0 <= i < |outcomes[1..]| && outcomes[1..][i] == Ok(r) &&
             forall j :: 0 <= j < i ==> !Usable(outcomes[1..][j]);
    assert outcomes[i + 1] == Ok(r);
    assert forall j :: 1 <= j < i + 1 ==> outcomes[j] == outcomes[1..][j - 1];
  }

  /** An approach's outcome that ends the search. */
  predicate Usable(outcome: Result<seq<Hash>>) {
    outcome.Ok? && outcome.value != []
  }

  /** The four approaches, in the order `fix_workspace_listing` tries them, with `idOf`
      deriving each entry's id. */
  function Approaches(st: Store, idOf: string -> string): (r: seq<Result<seq<Hash>>>)
    ensures |r| == 4
    ensures r[0] == ListByPattern(st, WorkspacePattern, idOf) && r[3] == ListAllAndFilter(st, idOf)
  {
    [ListByPattern(st, WorkspacePattern, idOf), ListByPattern(st, BroadPattern, idOf),
     ListByPattern(st, SubstringPattern, idOf), ListAllAndFilter(st, idOf)]
  }

  /** `fix_workspace_listing`, each entry's id taken from between `workspaces:` and
      `:keys`. */
  function FixWorkspaceListing(st: Store): (r: seq<Hash>)
    ensures r == [] <==> forall i :: 0 <= i < 4 ==> !Usable(Approaches(st, KeyId)[i])
    ensures r != [] ==> exists i :: 0 <= i < 4 && Approaches(st, KeyId)[i] == Ok(r) &&
                          forall j :: 0 <= j < i ==> !Usable(Approaches(st, KeyId)[j])
  {
    FirstNonEmpty(Approaches(st, KeyId))
  }

  /** `fix_workspace_listing` as written, each entry's id derived by splitting its key on
      `:`. */
  function FixWorkspaceListingAsWritten(st: Store): (r: seq<Hash>)
    ensures r == [] <==> forall i :: 0 <= i < 4 ==> !Usable(Approaches(st, SplitId)[i])
    ensures r != [] ==> exists i :: 0 <= i < 4 && Approaches(st, SplitId)[i] == Ok(r) &&
                          forall j :: 0 <= j < i ==> !Usable(Approaches(st, SplitId)[j])
  {
    FirstNonEmpty(Approaches(st, SplitId))
  }

  /** When the workspace manager's own pattern finds records (and matches no lock or queue
      key), the fixed listing is the manager's listing. */
  lemma FixPrefersManagerListing(st: Store)
    requires !WrongTypeAmong(st, k => Glob.Match(WorkspacePattern, k)) && ListWithoutLock(st) != []
    ensures FixWorkspaceListing(st) == ListWithoutLock(st)
  {
    assert ListByPattern(st, WorkspacePattern, KeyId) == Ok(ListWithoutLock(st));
  }

  /** The same holds of the listings as written, which both split keys on `:`. */
  lemma FixAsWrittenPrefersManagerListing(st: Store)
    requires !WrongTypeAmong(st, k => Glob.Match(WorkspacePattern, k)) && ListWithoutLockAsWritten(st) != []
    ensures FixWorkspaceListingAsWritten(st) == ListWithoutLockAsWritten(st)
  {
    assert ListByPattern(st, WorkspacePattern, SplitId) == Ok(ListWithoutLockAsWritten(st));
  }

  /** Every entry of the fixed listing is a decoded non-empty hash of the store, with its
      key's id. */
  lemma FixListsOnlyStoredRecords(st: Store)
    ensures forall e :: e in FixWorkspaceListing(st) ==>
              exists k :: HGetAll(st, k) != map[] && e == Decoded(st, k, KeyId(k))
  {
    var outcomes := Approaches(st, KeyId);
    var r := FixWorkspaceListing(st);
    if r != [] {
      var i :| 0 <= i < 4 && outcomes[i] == Ok(r);
      forall e | e in r
        ensures exists k :: HGetAll(st, k) != map[] && e == Decoded(st, k, KeyId(k))
      {
        if i == 0 {
          assert ListByPattern(st, WorkspacePattern, KeyId) == Ok(r);
        } else if i == 1 {
          assert ListByPattern(st, BroadPattern, KeyId) == Ok(r);
        } else if i == 2 {
          assert ListByPattern(st, SubstringPattern, KeyId) == Ok(r);
        } else {
          assert ListAllAndFilter(st, KeyId) == Ok(r);
        }
      }
    }
  }

  /** The operation queue's key matches `*workspace*`. */
  lemma QueueMatchesSubstringPattern()
    ensures Glob.Match(SubstringPattern, OperationQueue)
  {
    var q := OperationQueue;
    assert SubstringPattern == "*" + "workspace" + "*";
    assert q[..9] == "workspace";
    ContainsWitness(q, "workspace", 0);
    Glob.MatchInfix("workspace", q);
  }

  /** The operation queue's key passes the filter of `_list_all_and_filter`. */
  lemma QueueIsWorkspaceRelated()
    ensures WorkspaceRelated(OperationQueue)
  {
    var q := OperationQueue;
    assert forall i :: 0 <= i < 9 ==> Lower(q)[i] == q[i];
    assert Lower(q)[..9] == "workspace";
    ContainsWitness(Lower(q), "workspace", 0);
  }

  /** The operation queue is a list whose key contains "workspace": once it exists, the
      substring approach and the filtering approach both raise, whatever the records. */
  lemma OperationQueueBreaksBroadApproaches(st: Store, idOf: string -> string)
    requires OperationQueue in st.lists
    ensures ListByPattern(st, SubstringPattern, idOf).Err?
    ensures ListAllAndFilter(st, idOf).Err?
  {
    QueueMatchesSubstringPattern();
    QueueIsWorkspaceRelated();
  }
}
