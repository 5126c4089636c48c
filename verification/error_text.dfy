// Errors as the console tells them apart: by words in their formatted text, which
// quotes the names of the objects involved.
module ErrorText {
  import opened Text

  /** `text.includes(word)`. */
  predicate Mentions(text: string, word: string) {
    exists i :: 0 <= i <= |text| && MentionsAt(text, i, word)
  }

  predicate MentionsAt(text: string, i: int, word: string) {
    0 <= i <= |text| - |word| && text[i..i + |word|] == word
  }

  predicate IsNotFound(text: string) {
    Mentions(ToLower(text), "404") || Mentions(ToLower(text), "not found")
  }

  predicate IsConflict(text: string) {
    Mentions(ToLower(text), "409") || Mentions(ToLower(text), "conflict")
  }

  /** `message.includes("already exists")`, case and all. */
  predicate SaysExists(message: string) {
    Mentions(message, "already exists")
  }

  /** The text of a 404 for an object. */
  function MissingText(name: string): string {
    "HTTP-Code: 404 " + name
  }

  const PREFIX := "Failed to update backend group on VM "

  /** An error of `setBackendGroupLabel`, formatted with its cause. */
  function Wrapped(name: string, text: string): string {
    PREFIX + "\"" + name + "\"" + ": " + text + ": " + text
  }

  lemma MentionsPart(a: string, b: string, c: string, word: string)
    requires Mentions(b, word)
    ensures Mentions(a + b + c, word)
  {
    var i: int :| 0 <= i <= |b| && MentionsAt(b, i, word);
    assert (a + b + c)[|a| + i..|a| + i + |word|] == b[i..i + |word|];
    assert MentionsAt(a + b + c, |a| + i, word);
  }

  /** A word without the separator lies on one side of it. */
  lemma MentionsAcross(a: string, sep: char, b: string, word: string)
    requires sep !in word
    ensures Mentions(a + [sep] + b, word) <==> Mentions(a, word) || Mentions(b, word)
  {
    var all := a + [sep] + b;
    if Mentions(a, word) {
      assert [] + a + ([sep] + b) == all;
      MentionsPart([], a, [sep] + b, word);
    }
    if Mentions(b, word) {
      assert a + [sep] + b + [] == all;
      MentionsPart(a + [sep], b, [], word);
    }
    if Mentions(all, word) {
      var i: int :| 0 <= i <= |all| && MentionsAt(all, i, word);
      if i + |word| <= |a| {
        assert all[i..i + |word|] == a[i..i + |word|];
        assert MentionsAt(a, i, word);
      } else if i > |a| {
        assert all[i..i + |word|] == b[i - |a| - 1..i - |a| - 1 + |word|];
        assert MentionsAt(b, i - |a| - 1, word);
      } else {
        SepInside(all, i, |a|, word);
      }
    }
  }

  lemma SepInside(all: string, i: nat, k: nat, word: string)
    requires i <= k < i + |word| <= |all| && all[i..i + |word|] == word
    ensures all[k] in word
  {
    assert word[k - i] == all[k];
  }

  lemma MentionsAfterSpace(text: string, word: string)
    requires word != "" && word[0] != ' '
    ensures Mentions(" " + text, word) <==> Mentions(text, word)
  {
    var all := " " + text;
    if Mentions(text, word) {
      assert " " + text + [] == all;
      MentionsPart(" ", text, [], word);
    }
    if Mentions(all, word) {
      var i: int :| 0 <= i <= |all| && MentionsAt(all, i, word);
      assert all[i..i + |word|][0] == all[i];
      assert all[i..i + |word|] == text[i - 1..i - 1 + |word|];
      assert MentionsAt(text, i - 1, word);
    }
  }

  lemma MissingIsNotFound(name: string)
    ensures IsNotFound(MissingText(name))
  {
    assert MentionsAt(ToLower(MissingText(name)), 11, "404");
  }

  /** A 404 about a Kubernetes name, which has no blanks, says nothing of that. */
  lemma MissingSaysNothing(name: string)
    requires ' ' !in name
    ensures !SaysExists(MissingText(name))
  {
    var text := MissingText(name);
    assert forall k :: 15 <= k < |text| ==> text[k] == name[k - 15];
    forall i: int ensures !MentionsAt(text, i, "already exists") {
      BlankAfterY(text, i);
    }
  }

  lemma BlankAfterY(text: string, i: int)
    ensures MentionsAt(text, i, "already exists") ==> 0 <= i && i + 7 < |text| && text[i + 6] == 'y' && text[i + 7] == ' '
  {
    if MentionsAt(text, i, "already exists") {
      var part := text[i..i + 14];
      assert part[6] == text[i + 6] && part[7] == text[i + 7];
    }
  }

  lemma PrefixIsClean(word: string)
    requires word == "404" || word == "not found"
    ensures !Mentions(ToLower(PREFIX), word)
  {
    forall i: int ensures !MentionsAt(ToLower(PREFIX), i, word) {
      if MentionsAt(ToLower(PREFIX), i, word) {
        var part := ToLower(PREFIX)[i..i + |word|];
        assert part[0] == LowerChar(PREFIX[i]) && part[1] == LowerChar(PREFIX[i + 1]);
        NoSuchPair(i);
      }
    }
  }

  /** Neither "40" nor "no" occurs in the prefix, in any case. */
  lemma NoSuchPair(i: nat)
    requires i + 1 < |PREFIX|
    ensures LowerChar(PREFIX[i]) == '4' ==> LowerChar(PREFIX[i + 1]) != '0'
    ensures LowerChar(PREFIX[i]) == 'n' ==> LowerChar(PREFIX[i + 1]) != 'o'
  {
  }

  lemma WrappedMentions(name: string, text: string, word: string)
    requires word == "404" || word == "not found"
    ensures Mentions(ToLower(Wrapped(name, text)), word) <==> Mentions(ToLower(name), word) || Mentions(ToLower(text), word)
  {
    var n, t := ToLower(name), ToLower(text);
    var tail := " " + t;
    WrappedLower(name, text);
    PrefixIsClean(word);
    NothingMentioned(word);
    MentionsAfterSpace(t, word);
    hide Mentions, ToLower, Wrapped;
    MentionsAcross(ToLower(PREFIX), '"', n + ['"'] + ([] + [':'] + (tail + [':'] + tail)), word);
    MentionsAcross(n, '"', [] + [':'] + (tail + [':'] + tail), word);
    MentionsAcross([], ':', tail + [':'] + tail, word);
    MentionsAcross(tail, ':', tail, word);
  }

  lemma NothingMentioned(word: string)
    requires word != ""
    ensures !Mentions([], word)
  {
  }

  lemma WrappedLower(name: string, text: string)
    ensures var n, tail := ToLower(name), " " + ToLower(text);
            ToLower(Wrapped(name, text)) == ToLower(PREFIX) + ['"'] + (n + ['"'] + ([] + [':'] + (tail + [':'] + tail)))
  {
    assert ToLower("\"") == "\"" && ToLower(": ") == ": ";
    LowerConcat(PREFIX + "\"" + name + "\"" + ": " + text + ": ", text);
    LowerConcat(PREFIX + "\"" + name + "\"" + ": " + text, ": ");
    LowerConcat(PREFIX + "\"" + name + "\"" + ": ", text);
    LowerConcat(PREFIX + "\"" + name + "\"", ": ");
    LowerConcat(PREFIX + "\"" + name, "\"");
    LowerConcat(PREFIX + "\"", name);
    LowerConcat(PREFIX, "\"");
    var p, n, t := ToLower(PREFIX), ToLower(name), ToLower(text);
    assert ToLower(Wrapped(name, text)) == p + "\"" + n + "\"" + ": " + t + ": " + t;
    hide ToLower, Wrapped;
    Regroup(p, n, t);
  }

  lemma Regroup(p: string, n: string, t: string)
    ensures p + "\"" + n + "\"" + ": " + t + ": " + t
         == p + ['"'] + (n + ['"'] + ([] + [':'] + (" " + t + [':'] + (" " + t))))
  {
  }

  /** A failure reads as "not found" exactly when the VM's name or the call's own text says so. */
  lemma WrappedIsNotFound(name: string, text: string)
    ensures IsNotFound(Wrapped(name, text)) <==> IsNotFound(name) || IsNotFound(text)
  {
    WrappedMentions(name, text, "404");
    WrappedMentions(name, text, "not found");
    hide Mentions, ToLower, Wrapped;
  }
}
