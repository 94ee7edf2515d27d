/**
 * The two text rewrites of the session manager: `stripAnsi`, which leaves the visible
 * text that the activity classifier reads, and `filterProblematicSequences`, which takes
 * terminal queries and reports out of the output before it is forwarded to viewers.
 * Both are chains of `replace(re, '')` calls, modelled pass by pass.
 */
module Escapes {
  import opened Patterns

  /** `stripAnsi`: ten deletion passes, in the order of server/src/services/sessionManager.ts. */
  function StripAnsi(s: string): (r: string)
    ensures |r| <= |s|
    ensures forall c | c in r :: c in s
    ensures forall c | c in r :: !IsStrippedControl(c)
    ensures ESC !in r && '\r' !in r
  {
    var s1 := Erase(SgrSequence, s);
    var s2 := Erase(CsiSequence, s1);
    var s3 := Erase(OscSequence, s2);
    var s4 := Erase(StringSequence, s3);
    var s5 := Erase(PrivateModeSequence, s4);
    var s6 := Erase(KeypadMode, s5);
    var s7 := Erase(ControlChar, s6);
    var s8 := Erase(CarriageReturn, s7);
    var s9 := Erase(LeadingSgrRemnant, s8);
    var r := Erase(SgrRemnant, s9);
    EraseFromKeeps(SgrSequence, s, 0);
    EraseFromKeeps(CsiSequence, s1, 0);
    EraseFromKeeps(OscSequence, s2, 0);
    EraseFromKeeps(StringSequence, s3, 0);
    EraseFromKeeps(PrivateModeSequence, s4, 0);
    EraseFromKeeps(KeypadMode, s5, 0);
    EraseFromKeeps(ControlChar, s6, 0);
    EraseControlChars(s6, 0);
    EraseFromKeeps(CarriageReturn, s7, 0);
    EraseFromKeeps(LeadingSgrRemnant, s8, 0);
    EraseFromKeeps(SgrRemnant, s9, 0);
    assert IsStrippedControl(ESC) && IsStrippedControl('\r');
    r
  }

  const CprRequest: string := [ESC] + "[6n"
  const DsrRequest: string := [ESC] + "[5n"
  const DaResponse: string := [ESC] + "[?1;2c"
  const SecondaryDa: string := [ESC] + "[>c"
  const PrimaryDa: string := [ESC] + "[c"

  /**
   * `filterProblematicSequences`: removes OSC 11 colour queries, cursor position
   * reports, the device status requests and the device attribute queries and response.
   * It only deletes, and text without ESC passes through untouched.
   */
  function FilterProblematicSequences(data: string): (r: string)
    ensures |r| <= |data|
    ensures forall c | c in r :: c in data
  {
    var d1 := Erase(OscColorQuery, data);
    var d2 := Erase(CursorPositionReport, d1);
    var d3 := Erase(Literal(CprRequest), d2);
    var d4 := Erase(Literal(DsrRequest), d3);
    var d5 := Erase(Literal(DaResponse), d4);
    var d6 := Erase(Literal(SecondaryDa), d5);
    var r := Erase(Literal(PrimaryDa), d6);
    EraseFromKeeps(OscColorQuery, data, 0);
    EraseFromKeeps(CursorPositionReport, d1, 0);
    EraseFromKeeps(Literal(CprRequest), d2, 0);
    EraseFromKeeps(Literal(DsrRequest), d3, 0);
    EraseFromKeeps(Literal(DaResponse), d4, 0);
    EraseFromKeeps(Literal(SecondaryDa), d5, 0);
    EraseFromKeeps(Literal(PrimaryDa), d6, 0);
    r
  }

  /** Output without any ESC is forwarded to viewers exactly as the process wrote it. */
  lemma FilterLeavesPlainText(data: string)
    requires ESC !in data
    ensures FilterProblematicSequences(data) == data
  {
    EraseEscFree(OscColorQuery, data);
    EraseEscFree(CursorPositionReport, data);
    EraseEscFree(Literal(CprRequest), data);
    EraseEscFree(Literal(DsrRequest), data);
    EraseEscFree(Literal(DaResponse), data);
    EraseEscFree(Literal(SecondaryDa), data);
    EraseEscFree(Literal(PrimaryDa), data);
  }
}
