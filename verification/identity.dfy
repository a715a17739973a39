/** Participant ids as the client announces them. */
module Identity {
  import opened SessionTypes
  import Text

  /**
   `char::to_lowercase` as far as the normaliser can observe it: the two letters beyond ASCII whose lower case
   contains an ASCII letter are mapped; every other letter beyond ASCII stays beyond ASCII and is dropped anyway.
   */
  function LowerCase(c: char): string
  {
    if Text.IsAsciiUpper(c) then [Text.AsciiLowerChar(c)]
    else if c == '\U{212A}' then "k"
    else if c == '\U{0130}' then "i\U{0307}"
    else [c]
  }

  predicate IsIdChar(c: char)
  {
    Text.IsAsciiLower(c) || Text.IsAsciiDigit(c) || c == '-' || c == '_'
  }

  /** Keeps the characters an id may have, turns white space into dashes and drops the rest. */
  function Filtered(s: string): string
  {
    if s == "" then "" else
      var rest := Filtered(s[1..]);
      if IsIdChar(s[0]) then [s[0]] + rest
      else if Text.IsWhitespace(s[0]) then ['-'] + rest
      else rest
  }

  function Lowered(s: string): string
  {
    if s == "" then "" else LowerCase(s[0]) + Lowered(s[1..])
  }

  function NormalizeParticipantId(raw: string): string
  {
    var source := Text.Trim(raw);
    var normalized := Filtered(Lowered(if source == "" then "participant" else source));
    if normalized == "" then "participant" else normalized
  }

  function ResolvedParticipantId(config: MeetingConfig): string
  {
    NormalizeParticipantId(if !Text.IsBlank(config.participantId) then config.participantId else config.participantName)
  }

  predicate IsId(s: string)
  {
    s != "" && forall i :: 0 <= i < |s| ==> IsIdChar(s[i])
  }

  lemma {:induction false} FilteredIsClean(s: string)
    ensures forall i :: 0 <= i < |Filtered(s)| ==> IsIdChar(Filtered(s)[i])
  {
    if s != "" {
      FilteredIsClean(s[1..]);
    }
  }

  lemma {:induction false} CleanIsFixed(s: string)
    requires forall i :: 0 <= i < |s| ==> IsIdChar(s[i])
    ensures Lowered(s) == s && Filtered(s) == s
  {
    if s != "" {
      CleanIsFixed(s[1..]);
      assert s == [s[0]] + s[1..];
    }
  }

  /** What is kept of a text: its characters, one by one. */
  function Kept(s: string): string
  {
    Filtered(Lowered(s))
  }

  lemma {:induction false} FilteredConcat(a: string, b: string)
    ensures Filtered(a + b) == Filtered(a) + Filtered(b)
  {
    if a == "" {
      assert a + b == b;
    } else {
      assert (a + b)[1..] == a[1..] + b;
      FilteredConcat(a[1..], b);
    }
  }

  /**
   Characters are kept independently of each other: letters in small, digits, dashes and underscores as they are, white
   space as a dash, the Kelvin sign and the dotted capital I as the letters they resemble, and no other character.
   */
  lemma KeptOneByOne(c: char, rest: string)
    ensures Kept([c] + rest) == Kept([c]) + Kept(rest)
    ensures IsIdChar(c) ==> Kept([c]) == [c]
    ensures Text.IsAsciiUpper(c) ==> Kept([c]) == [Text.AsciiLowerChar(c)]
    ensures Text.IsWhitespace(c) ==> Kept([c]) == "-"
    ensures c == '\U{212A}' ==> Kept([c]) == "k"
    ensures c == '\U{0130}' ==> Kept([c]) == "i"
    ensures !IsIdChar(c) && !Text.IsAsciiUpper(c) && !Text.IsWhitespace(c) && c != '\U{212A}' && c != '\U{0130}' ==>
              Kept([c]) == ""
  {
    assert ([c] + rest)[1..] == rest && [c][1..] == "";
    assert Lowered([c]) == LowerCase(c);
    FilteredConcat(LowerCase(c), Lowered(rest));
    OneIsFiltered(c);
    OneIsFiltered(Text.AsciiLowerChar(c));
    OneIsFiltered('k');
    OneIsFiltered('i');
    OneIsFiltered('\U{0307}');
    FilteredConcat("i", "\U{0307}");
    assert "i" + "\U{0307}" == "i\U{0307}";
  }

  lemma OneIsFiltered(c: char)
    ensures Filtered([c]) == if IsIdChar(c) then [c] else if Text.IsWhitespace(c) then "-" else ""
  {
    assert [c][1..] == "";
  }

  /** An id is what is kept of its trimmed source, or `participant` if that is nothing; so ids are kept as they are. */
  lemma NormalizesExactly(raw: string)
    ensures NormalizeParticipantId(raw) == if Kept(Text.Trim(raw)) == "" then "participant" else Kept(Text.Trim(raw))
    ensures IsId(raw) ==> NormalizeParticipantId(raw) == raw
  {
    ParticipantIsKept();
    if IsId(raw) {
      IdIsKept(raw);
    }
  }

  lemma ParticipantIsKept()
    ensures Kept("participant") == "participant"
  {
    ParticipantIsClean();
    CleanIsFixed("participant");
  }

  lemma ParticipantIsClean()
    ensures IsId("participant")
  {
  }

  lemma IdIsKept(s: string)
    requires IsId(s)
    ensures Text.Trim(s) == s && Kept(s) == s
  {
    CleanIsFixed(s);
    Text.TrimKeeps(s);
  }

  /** A normalised id is never empty, uses only `a-z`, `0-9`, `-` and `_`, and normalising it again changes nothing. */
  lemma NormalizedIsId(raw: string)
    ensures var id := NormalizeParticipantId(raw); IsId(id) && NormalizeParticipantId(id) == id
  {
    var id := NormalizeParticipantId(raw);
    var source := Text.Trim(raw);
    FilteredIsClean(Lowered(if source == "" then "participant" else source));
    assert IsId(id);
    CleanIsFixed(id);
    Text.TrimKeeps(id);
  }
}
