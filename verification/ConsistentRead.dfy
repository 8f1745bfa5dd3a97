/** devinfo/src/mountinfo/io_utils.rs */
module ConsistentReads {
  import opened Wrappers

  const DEFAULT_RETRY_COUNT: u32 := 10

  datatype ReadError = Io(why: string) | InconsistentRead(retries: u32)

  /** The results of reading the file again and again; the file may change, or fail, between any two. */
  type Reads = nat -> Result<Bytes, ReadError>

  ghost predicate AllRead(content: Reads, n: nat) {
    forall i | 0 <= i < n :: content(i).Ok?
  }

  /** The first `n` reads succeed and no two in a row agree. */
  ghost predicate Unsettled(content: Reads, n: nat) {
    AllRead(content, n) && forall i | 1 <= i < n :: content(i) != content(i - 1)
  }

  /** The `k`-th read decides: it fails, or agrees with the one before it, and none did so earlier. */
  ghost predicate SettledAt(content: Reads, k: nat) {
    Unsettled(content, k) && (content(k).Err? || (k > 0 && content(k) == content(k - 1)))
  }

  /**
   * The content of the first two reads in a row that agree, among `retries + 2` reads; the error of a
   * read that fails before that; InconsistentRead exactly when all of them succeed and no two agree.
   */
  method ConsistentRead(read: Reads, retryCount: Option<u32>) returns (r: Result<Bytes, ReadError>)
    ensures var retries := if retryCount.Some? then retryCount.value else 10;
            && (forall k | 0 <= k <= retries + 1 && SettledAt(read, k) :: r == read(k))
            && (Unsettled(read, retries + 2) ==> r == Err(InconsistentRead(retries)))
  {
    var currentContent := read(0);
    if currentContent.Err? {
      return currentContent;
    }
    var retries := if retryCount.Some? then retryCount.value else DEFAULT_RETRY_COUNT;
    for i := 0 to retries + 1
      invariant currentContent == read(i) && Unsettled(read, i + 1)
    {
      var newContent := read(i + 1);
      if newContent.Err? {
        return newContent;
      }
      if newContent == currentContent {
        return newContent;
      }
      currentContent := newContent;
    }
    r := Err(InconsistentRead(retries));
  }

  /** Either no read among the first `n` decides or exactly one does, so the contract above determines the result. */
  lemma {:induction false} ReadsSettleOneWay(content: Reads, n: nat)
    ensures Unsettled(content, n) <==> forall k | 0 <= k < n :: !SettledAt(content, k)
    ensures forall j, k | 0 <= j < k < n :: !(SettledAt(content, j) && SettledAt(content, k))
  {
    if n > 0 {
      ReadsSettleOneWay(content, n - 1);
      if Unsettled(content, n - 1) && !SettledAt(content, n - 1) {
        assert Unsettled(content, n);
      }
    }
  }
}
