/**
 * The clean-up the analyze handler applies to the model's text before
 * parsing it: two global regular-expression deletions, of "```json" and of
 * "```", each together with one newline right after it, followed by trim.
 */
module Fence {
  import opened JsString

  const Fence: string := "```"
  const JsonFence: string := "```json"

  /**
   * `s.replace(/lit\n?/g, '')` for a literal lit: scanning left to right,
   * each occurrence of lit (and one newline right after it, if there is one)
   * is deleted and the scan resumes after it; every other character is kept.
   */
  function DeleteAll(s: string, lit: string): (r: string)
    requires lit != []
    ensures |r| <= |s|
    decreases |s|
  {
    if s == [] then []
    else if StartsWith(s, lit) then
      var rest := s[|lit|..];
      DeleteAll(if rest != [] && rest[0] == '\n' then rest[1..] else rest, lit)
    else
      [s[0]] + DeleteAll(s[1..], lit)
  }

  /** The text JSON.parse receives: `text.replace(/```json\n?/g, '').replace(/```\n?/g, '').trim()`. */
  function Clean(text: string): (r: string)
    ensures !Contains(r, Fence)
    ensures Trimmed(r)
    ensures !Contains(text, Fence) ==> r == Trim(text)
  {
    var once := DeleteAll(text, JsonFence);
    var twice := DeleteAll(once, Fence);
    DeleteFenceLeavesNoFence(once);
    TrimKeepsAbsence(twice, Fence);
    DeletionsKeepFenceFree(text);
    Trim(twice)
  }

  /** Cleaning is idempotent: cleaned text comes through a second clean-up unchanged. */
  lemma CleanIdempotent(text: string)
    ensures Clean(Clean(text)) == Clean(text)
  {
    TrimOfTrimmed(Clean(text));
  }

  /** Text with no "```" in it is only trimmed. */
  lemma CleanFenceFree(text: string)
    requires !Contains(text, Fence)
    ensures Clean(text) == Trim(text)
  {
  }

  /** A "```json" fence on its own line around a payload cleans to the cleaned payload. */
  lemma CleanJsonFencedPayload(p: string)
    requires !Contains(p, Fence)
    ensures Clean("```json\n" + p + "\n```") == Clean(p)
  {
    var tagged := "```json\n" + p + "\n```";
    assert DeleteAll(tagged, JsonFence) == p + "\n```" by {
      assert tagged[|JsonFence|..][1..] == p + "\n```";
      DeleteAllKeepsFenceFree(p, "\n```", JsonFence);
      ClosingFenceKept();
    }
    FencedTail(p);
  }

  /** A bare "```" fence on its own line around a payload cleans to the cleaned payload. */
  lemma CleanBareFencedPayload(p: string)
    requires !Contains(p, Fence)
    ensures Clean("```\n" + p + "\n```") == Clean(p)
  {
    var bare := "```\n" + p + "\n```";
    assert DeleteAll(bare, JsonFence) == bare by {
      assert bare == "```\n" + (p + "\n```");
      BareFenceOpening(p + "\n```");
      DeleteAllKeepsFenceFree(p, "\n```", JsonFence);
      ClosingFenceKept();
    }
    assert DeleteAll(bare, Fence) == DeleteAll(p + "\n```", Fence) by {
      assert bare[|Fence|..][1..] == p + "\n```";
    }
    FencedTail(p);
  }

  /** The "```json" pass keeps a closing "\n```". */
  lemma ClosingFenceKept()
    ensures DeleteAll("\n```", JsonFence) == "\n```"
  {
    assert "\n```"[1..] == Fence;
    assert DeleteAll(Fence, JsonFence) == Fence by {
      assert Fence[1..] == "``";
      assert Fence[1..][1..] == "`";
    }
  }

  /** The "```" pass and trim turn a payload followed by a closing fence into the cleaned payload. */
  lemma FencedTail(p: string)
    requires !Contains(p, Fence)
    ensures Trim(DeleteAll(p + "\n```", Fence)) == Clean(p)
  {
    DeleteAllKeepsFenceFree(p, "\n```", Fence);
    assert DeleteAll("\n```", Fence) == "\n" by {
      assert "\n```"[1..] == Fence;
      assert DeleteAll(Fence, Fence) == [];
    }
    TrimDropsTrailingNewline(p);
  }

  /** The "```json" pass leaves a bare opening fence in place. */
  lemma BareFenceOpening(q: string)
    ensures DeleteAll("```\n" + q, JsonFence) == "```\n" + DeleteAll(q, JsonFence)
  {
    var s := "```\n" + q;
    KeptChar(s, JsonFence, 3);
    KeptChar(s[1..], JsonFence, 2);
    KeptChar(s[2..], JsonFence, 1);
    KeptChar(s[3..], JsonFence, 0);
    assert s[1..][1..] == s[2..];
    assert s[2..][1..] == s[3..];
    assert s[3..][1..] == q;
  }

  /** A character is kept when lit cannot start at it, as s[k] is a newline and lit has none. */
  lemma KeptChar(s: string, lit: string, k: nat)
    requires '\n' !in lit
    requires k < |lit| && k < |s| && s[k] == '\n'
    ensures DeleteAll(s, lit) == [s[0]] + DeleteAll(s[1..], lit)
  {
  }

  // ---------------------------------------------------------------------------
  // Lemmas about DeleteAll
  // ---------------------------------------------------------------------------

  /** No "```" survives the deletion of every "```". */
  lemma {:induction false} DeleteFenceLeavesNoFence(s: string)
    ensures !Contains(DeleteAll(s, Fence), Fence)
    decreases |s|
  {
    if s == [] {
    } else if StartsWith(s, Fence) {
      var rest := s[|Fence|..];
      DeleteFenceLeavesNoFence(if rest != [] && rest[0] == '\n' then rest[1..] else rest);
    } else {
      var d := DeleteAll(s[1..], Fence);
      DeleteFenceLeavesNoFence(s[1..]);
      if s[0] == '`' {
        assert !StartsWith(s[1..], "``");
        DeleteFenceKeepsHead(s[1..]);
      }
      NotContainedCons(s[0], d, Fence);
    }
  }

  /**
   * A text that does not start with two backticks does not start with two
   * backticks after the "```" pass either: a kept backtick is never
   * followed by a deleted fence.
   */
  lemma DeleteFenceKeepsHead(t: string)
    requires !StartsWith(t, "``")
    ensures !StartsWith(DeleteAll(t, Fence), "``")
  {
    if t != [] {
      assert !StartsWith(t, Fence);
      if t[0] == '`' && |t| > 1 {
        assert !StartsWith(t[1..], Fence);
      }
    }
  }

  /** Deleting a literal that does not occur changes nothing. */
  lemma {:induction false} DeleteAllAbsent(s: string, lit: string)
    requires lit != []
    requires !Contains(s, lit)
    ensures DeleteAll(s, lit) == s
    decreases |s|
  {
    if s != [] {
      StartsWithOccursAtZero(s, lit);
      NotContainedInSlice(s, lit, 1, |s|);
      assert s[1..|s|] == s[1..];
      DeleteAllAbsent(s[1..], lit);
    }
  }

  /** Both passes leave text with no "```" in it unchanged. */
  lemma DeletionsKeepFenceFree(text: string)
    ensures !Contains(text, Fence) ==> DeleteAll(DeleteAll(text, JsonFence), Fence) == text
  {
    if !Contains(text, Fence) {
      FenceFreeHasNoJsonFence(text);
      DeleteAllAbsent(text, JsonFence);
      DeleteAllAbsent(text, Fence);
    }
  }

  /** Text free of "```" is free of "```json". */
  lemma FenceFreeHasNoJsonFence(s: string)
    requires !Contains(s, Fence)
    ensures !Contains(s, JsonFence)
  {
    if Contains(s, JsonFence) {
      assert JsonFence == Fence + "json";
      ExtensionContained(s, Fence, "json");
    }
  }

  /** A match of lit at the start of p + t would put "```" in p or a backtick at the head of t. */
  lemma NoMatchAtFenceFreeStart(p: string, t: string, lit: string)
    requires |lit| >= 3 && lit[..3] == Fence
    requires p != [] && !Contains(p, Fence)
    requires t == [] || t[0] != '`'
    ensures !StartsWith(p + t, lit)
  {
    var s := p + t;
    if |p| >= 3 {
      assert !OccursAt(p, Fence, 0);
      assert s[..3] == p[0..3];
      assert |lit| <= |s| ==> s[..|lit|][..3] == s[..3];
    } else {
      assert lit[|p|] == '`';
      assert |lit| <= |s| ==> s[..|lit|][|p|] == t[0];
    }
  }

  /**
   * A fence-free prefix passes through either deletion unchanged when the
   * text after it does not start with a backtick, so no occurrence can
   * straddle the boundary.
   */
  lemma {:induction false} DeleteAllKeepsFenceFree(p: string, t: string, lit: string)
    requires |lit| >= 3 && lit[..3] == Fence
    requires !Contains(p, Fence)
    requires t == [] || t[0] != '`'
    ensures DeleteAll(p + t, lit) == p + DeleteAll(t, lit)
    decreases |p|
  {
    if p != [] {
      var s := p + t;
      NoMatchAtFenceFreeStart(p, t, lit);
      assert s[1..] == p[1..] + t;
      NotContainedInSlice(p, Fence, 1, |p|);
      assert p[1..|p|] == p[1..];
      DeleteAllKeepsFenceFree(p[1..], t, lit);
    } else {
      assert p + t == t;
    }
  }
}
