/**
 * The parts of a remote media item that the index bookkeeping uses: its id,
 * description and checksum, and a local file name that depends on a mutable
 * duplicate number. The naming below stands in for the media class's
 * `filename` property; what the bookkeeping relies on is that it is
 * one-to-one in the duplicate number.
 */
module PhotosMedia {
  import opened Wrappers
  import opened Strings

  /** The original name for duplicate number 0, else the name followed by " (n)". */
  function NumberedName(base: string, n: nat): string
  {
    if n == 0 then base else base + " (" + NatToString(n) + ")"
  }

  /** Different duplicate numbers give different names. */
  lemma NumberedNameInjective(base: string, m: nat, n: nat)
    requires NumberedName(base, m) == NumberedName(base, n)
    ensures m == n
  {
    if m != 0 && n != 0 {
      var sm, sn := NatToString(m), NatToString(n);
      var lm, ln := base + " (" + sm + ")", base + " (" + sn + ")";
      assert |sm| == |sn|;
      assert lm[|base| + 2..|base| + 2 + |sm|] == sm;
      assert ln[|base| + 2..|base| + 2 + |sn|] == sn;
      NatToStringInjective(m, n);
    }
  }

  /** A numbered name is absolute exactly when the original name is. */
  lemma NumberedNameAbsolute(base: string, n: nat)
    ensures StartsWith(NumberedName(base, n), "/") == StartsWith(base, "/")
  {
    if n != 0 && base != [] {
      assert NumberedName(base, n)[0] == base[0];
    } else if n != 0 {
      assert NumberedName(base, n)[0] == ' ';
    }
  }

  /** The local path probed for duplicate number n: `os.path.join(path, media.filename)`. */
  function Candidate(path: string, base: string, n: nat): string
  {
    PathJoin(path, NumberedName(base, n))
  }

  /** Different duplicate numbers probe different paths. */
  lemma CandidateInjective(path: string, base: string, m: nat, n: nat)
    requires Candidate(path, base, m) == Candidate(path, base, n)
    ensures m == n
  {
    NumberedNameAbsolute(base, m);
    NumberedNameAbsolute(base, n);
    PathJoinInjective(path, NumberedName(base, m), NumberedName(base, n));
    NumberedNameInjective(base, m, n);
  }

  /** The keys among `keys` that a probe starting at duplicate number n may still reach. */
  ghost function Pending(keys: set<string>, path: string, base: string, n: nat): set<string>
  {
    set k | k in keys && exists m: nat :: n <= m && k == Candidate(path, base, m)
  }

  lemma SubsetCardinality(a: set<string>, b: set<string>)
    requires a <= b
    ensures |a| <= |b|
  {
    var d := b - a;
    assert b == a + d;
    assert a * d == {};
  }

  /**
   * Stepping past a candidate that is among `keys` leaves strictly fewer keys
   * to reach: the termination measure of the duplicate probes.
   */
  lemma PendingShrinks(keys: set<string>, path: string, base: string, n: nat)
    requires Candidate(path, base, n) in keys
    ensures |Pending(keys, path, base, n + 1)| < |Pending(keys, path, base, n)|
  {
    var c := Candidate(path, base, n);
    var now, next := Pending(keys, path, base, n), Pending(keys, path, base, n + 1);
    assert c in now;
    forall k | k in next ensures k in now - {c} {
      var m: nat :| n + 1 <= m && k == Candidate(path, base, m);
      if k == c {
        CandidateInjective(path, base, m, n);
      }
    }
    SubsetCardinality(next, now - {c});
  }

  /** A remote media item as the sync sees it. */
  class Media {
    const id: string
    /** The item's original file name. */
    const title: string
    const description: Option<string>
    const checksum: Option<string>
    var duplicateNumber: nat

    constructor (id: string, title: string, description: Option<string>, checksum: Option<string>)
      ensures this.id == id && this.title == title
      ensures this.description == description && this.checksum == checksum
      ensures duplicateNumber == 0
    {
      this.id := id;
      this.title := title;
      this.description := description;
      this.checksum := checksum;
      duplicateNumber := 0;
    }

    function FileName(): string
      reads this
    {
      NumberedName(title, duplicateNumber)
    }
  }
}
