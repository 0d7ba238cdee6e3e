/** The repair pass of `GVPDownloader._download_data` (volcanoes/core/gvp_downloader.py): the web
    service emits the unescaped text `(< ` inside its payload, and every occurrence is rewritten to
    `(&lt; ` before the payload is cached. */
module Repair {
  import Seqs

  newtype byte = x: int | 0 <= x < 256

  type Bytes = seq<byte>

  /** `b'(< '`. */
  const Pattern: Bytes := [40, 60, 32]

  /** `b'(&lt; '`. */
  const Replacement: Bytes := [40, 38, 108, 116, 59, 32]

  /** `content.replace(b'(< ', b'(&lt; ')`: occurrences are replaced left to right, and the scan
      resumes after each replaced occurrence. */
  function Replace(s: Bytes): (r: Bytes)
    ensures |r| >= |s|
    ensures s != [] ==> r != [] && r[0] == s[0]
  {
    if Seqs.IsPrefix(Pattern, s) then Replacement + Replace(s[3..])
    else if s == [] then []
    else [s[0]] + Replace(s[1..])
  }

  /** `if b'(< ' in content: content = content.replace(...)`. */
  function Repair(s: Bytes): Bytes {
    if Seqs.Contains(s, Pattern) then Replace(s) else s
  }

  /** No occurrence of the pattern survives the replacement. */
  lemma {:induction false} ReplaceRemovesPattern(s: Bytes)
    ensures !Seqs.Contains(Replace(s), Pattern)
  {
    var r := Replace(s);
    Seqs.ContainsAt(r, Pattern);
    if Seqs.IsPrefix(Pattern, s) {
      var rest := Replace(s[3..]);
      ReplaceRemovesPattern(s[3..]);
      Seqs.ContainsAt(rest, Pattern);
      assert r[..6] == Replacement;
      forall i | 6 <= i <= |r| - 3 ensures !Seqs.MatchAt(r, Pattern, i) {
        assert r[i..i + 3] == rest[i - 6..i - 6 + 3];
        assert !Seqs.MatchAt(rest, Pattern, i - 6);
      }
      forall i | 0 <= i < 6 ensures !Seqs.MatchAt(r, Pattern, i) {
        assert i + 1 < 6 ==> r[i] != 40 || r[i + 1] != 60;
      }
    } else if s != [] {
      var rest := Replace(s[1..]);
      ReplaceRemovesPattern(s[1..]);
      Seqs.ContainsAt(rest, Pattern);
      forall i | 1 <= i <= |r| - 3 ensures !Seqs.MatchAt(r, Pattern, i) {
        assert r[i..i + 3] == rest[i - 1..i - 1 + 3];
        assert !Seqs.MatchAt(rest, Pattern, i - 1);
      }
      // A match at the front would need `s` itself to start with the pattern.
      if |r| >= 3 {
        var s2 := s[1..];
        if Seqs.IsPrefix(Pattern, s2) {
          assert r[1] == rest[0] == 40;
        } else if |s| >= 3 {
          assert rest == [s2[0]] + Replace(s2[1..]);
          assert r[..3] == s[..3];
        }
      }
    }
  }

  /** Repaired bytes never contain `(< `. */
  lemma RepairRemovesPattern(s: Bytes)
    ensures !Seqs.Contains(Repair(s), Pattern)
  {
    ReplaceRemovesPattern(s);
  }

  /** Bytes without the pattern pass through the replacement unchanged, so the guard in front of it
      only saves work. */
  lemma {:induction false} ReplaceWithoutPattern(s: Bytes)
    requires !Seqs.Contains(s, Pattern)
    ensures Replace(s) == s
  {
    if s != [] {
      assert !Seqs.IsPrefix(Pattern, s);
      ReplaceWithoutPattern(s[1..]);
    }
  }

  /** Repair leaves clean input unchanged and is idempotent. */
  lemma RepairIdempotent(s: Bytes)
    ensures !Seqs.Contains(s, Pattern) ==> Repair(s) == s
    ensures Repair(Repair(s)) == Repair(s)
  {
    RepairRemovesPattern(s);
  }

  /** Every occurrence grows the payload by three bytes: repair is length-preserving exactly on clean
      input. */
  lemma {:induction false} ReplaceLength(s: Bytes)
    ensures |Replace(s)| == |s| <==> !Seqs.Contains(s, Pattern)
  {
    if Seqs.IsPrefix(Pattern, s) {
      assert |Replace(s)| == 6 + |Replace(s[3..])|;
    } else if s != [] {
      ReplaceLength(s[1..]);
    }
  }
}
