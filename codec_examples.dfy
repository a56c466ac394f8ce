/**
 * Concrete records read and written by the codec: the notes, positions,
 * meter changes and tempo changes of the repository's own dataset.
 */
module CodecExamples {
  import opened Wrappers
  import opened NotedTypes
  import opened Numerals
  import opened Texts
  import opened PositionCodec
  import opened RecordCodec

  /** A record is read at its first '@'. */
  lemma ReadAtFirstAt(h: string, b: string)
    requires '@' !in h
    ensures NoteFromString(h + ['@'] + b) == NoteOfParts(h + ['@'] + b, h, SplitBody(b).0, SplitBody(b).1)
  {
    var s := h + ['@'] + b;
    FirstIndexAfter(h, '@', b);
    assert s[..|h|] == h && s[|h| + 1..] == b;
  }

  lemma ValueHead()
    ensures SplitHead("value") == Some(("value", None))
  {
    assert ':' !in "value"[1..];
  }

  lemma BarOneFields()
    ensures MatchPosition("1") == Some(PositionText("1", None, None))
    ensures PositionOfText("1", PositionText("1", None, None)) == Success(BarPos(1))
  {
    var f := PositionText("1", None, None);
    MatchRendered(f);
    assert Render(f) == "1";
    assert DigitsValue("1") == 1;
  }

  lemma TrailingAmpersandIsDropped()
    ensures Attributes("aaa&") == ["aaa"]
  {
    SplitAfter("aaa", '&', []);
    assert "aaa" + ['&'] + [] == "aaa&";
  }

  lemma BarOnlyBody()
    ensures SplitBody("1?aaa&") == ("1", Some("aaa&"))
  {
    SplitBodyOf("1", Some("aaa&"));
    assert "1" + QueryRender(Some("aaa&")) == "1?aaa&";
  }

  /** The parts of a record read as the note their fields spell. */
  lemma PartsSpell(s: string, headText: string, posText: string, attrText: Option<string>,
                   value: string, kind: Option<string>, f: PositionText, position: Position, duration: Option<nat>)
    requires SplitHead(headText) == Some((value, kind))
    requires MatchPosition(posText) == Some(f)
    requires f.grid.Some? || f.duration.None?
    requires attrText.Some? ==> |attrText.value| > 0 && NoLineBreak(attrText.value)
    requires PositionOfText(posText, f) == Success(position)
    requires ReadDuration(f.duration) == Success(duration)
    ensures NoteOfParts(s, headText, posText, attrText) == Success(Note(value, kind, position, duration, AttributeList(attrText)))
  {
  }

  lemma AttributeTextHasNoBreak()
    ensures NoLineBreak("aaa&")
  {
    var t := "aaa&";
    forall i | 0 <= i < |t| ensures !LineBreak(t[i]) {
      assert t[i] == 'a' || t[i] == '&';
    }
  }

  lemma BarOnlyParts(s: string)
    ensures NoteOfParts(s, "value", "1", Some("aaa&")) == Success(Note("value", None, BarPos(1), None, Some(["aaa"])))
  {
    ValueHead();
    BarOneFields();
    TrailingAmpersandIsDropped();
    AttributeTextHasNoBreak();
    PartsSpell(s, "value", "1", Some("aaa&"), "value", None, PositionText("1", None, None), BarPos(1), None);
  }

  /** 'value@1?aaa&': a bar position, and the empty attribute after the last '&' dropped. */
  lemma BarOnlyNote()
    ensures NoteFromString("value@1?aaa&") == Success(Note("value", None, BarPos(1), None, Some(["aaa"])))
  {
    assert "value@1?aaa&" == "value" + ['@'] + "1?aaa&";
    ReadAtFirstAt("value", "1?aaa&");
    BarOnlyBody();
    BarOnlyParts("value@1?aaa&");
  }

  function FullNote(): Note {
    Note("value", Some("type"), RegularPos(1, 17, 16, Some(Ratio(3, 2))), Some(2), Some(["aaa", "bbb"]))
  }

  /** A text of letters other than the separators and line breaks. */
  lemma LettersArePlain(t: string)
    requires |t| > 0
    requires forall i :: 0 <= i < |t| ==> 'a' <= t[i] <= 'z'
    ensures PlainText(t)
  {
  }

  lemma TwoSorted()
    ensures SortStrings(["aaa", "bbb"]) == ["aaa", "bbb"]
  {
    var xs := ["aaa", "bbb"];
    assert xs[..1] == ["aaa"];
    assert SortStrings(["aaa"]) == ["aaa"];
    assert !LexLeq("bbb", "aaa");
  }

  lemma FullNoteIsPlain()
    ensures PlainNote(FullNote())
    ensures Normalized(FullNote()) == FullNote()
  {
    LettersArePlain("value");
    LettersArePlain("type");
    LettersArePlain("aaa");
    LettersArePlain("bbb");
    TwoSorted();
  }

  lemma FullNoteFields()
    ensures NoteFields(FullNote()) == PositionText("1", Some(GridText("17", "16", Some(TupletText("3", "2")))), Some("2"))
  {
    assert NatToString(17) == "17";
    assert NatToString(16) == "16";
  }

  lemma FullFieldsText()
    ensures Render(PositionText("1", Some(GridText("17", "16", Some(TupletText("3", "2")))), Some("2"))) == "1.17/16*3:2~2"
  {
  }

  lemma FullAttributesText()
    ensures AttributeText(FullNote().attributes) == Some("aaa&bbb")
  {
    TwoSorted();
    assert Join(["aaa", "bbb"], '&') == "aaa&bbb";
  }

  lemma FullBodyPieces()
    ensures "1.17/16*3:2~2" + QueryRender(Some("aaa&bbb")) == "1.17/16*3:2~2?aaa&bbb"
  {
  }

  lemma FullNoteBody()
    ensures NoteBody(FullNote()) == "1.17/16*3:2~2?aaa&bbb"
  {
    FullNoteFields();
    FullFieldsText();
    FullAttributesText();
    FullBodyPieces();
  }

  lemma FullNotePieces()
    ensures "value:type" + ['@'] + "1.17/16*3:2~2?aaa&bbb" == "value:type@1.17/16*3:2~2?aaa&bbb"
  {
  }

  lemma FullNoteHead()
    ensures NoteHead(FullNote()) == "value:type"
  {
    assert "value" + [':'] + "type" == "value:type";
  }

  lemma FullNoteText()
    ensures NoteToString(FullNote()) == "value:type@1.17/16*3:2~2?aaa&bbb"
  {
    FullNoteBody();
    FullNoteHead();
    FullNotePieces();
  }

  /** 'value:type@1.17/16*3:2~2?aaa&bbb': every field present. */
  lemma FullNoteReads()
    ensures NoteFromString("value:type@1.17/16*3:2~2?aaa&bbb") == Success(FullNote())
  {
    FullNoteIsPlain();
    FullNoteText();
    NoteRoundTrip(FullNote());
  }

  /** 'value@': nothing after the '@' is no position. */
  lemma EmptyPositionIsRefused()
    ensures NoteFromString("value@") == Failure(InvalidRecordFormat("value@"))
  {
    assert "value@" == "value" + ['@'] + [];
    ReadAtFirstAt("value", []);
    assert SplitDigits([]) == ([], []);
  }

  /**
   * 'a@b@1': the reader splits at the first '@', and "b@1" is no position, so
   * the record is refused where NOTE_REGEX backtracks to the second '@'.
   */
  lemma SecondAtIsRefused()
    ensures NoteFromString("a@b@1") == Failure(InvalidRecordFormat("a@b@1"))
  {
    assert "a@b@1" == "a" + ['@'] + "b@1";
    ReadAtFirstAt("a", "b@1");
    assert '?' !in "b@1";
    assert SplitDigits("b@1") == ([], "b@1");
  }

  lemma ColonPositionFields()
    ensures SplitBody("1:2") == ("1:2", None)
    ensures MatchPosition("1:2") == None
  {
    assert '?' !in "1:2";
    assert "1:2" == "1" + ":2";
    SplitDigitsOf("1", ":2");
  }

  /** 'value@1:2': a ':' after the bar is not part of any position. */
  lemma ColonAfterBarIsRefused()
    ensures NoteFromString("value@1:2") == Failure(InvalidRecordFormat("value@1:2"))
  {
    assert "value@1:2" == "value" + ['@'] + "1:2";
    ReadAtFirstAt("value", "1:2");
    ColonPositionFields();
  }

  lemma CaretPositionFields()
    ensures SplitBody("1.17^3:2") == ("1.17^3:2", None)
    ensures MatchPosition("1.17^3:2") == None
  {
    assert '?' !in "1.17^3:2";
    assert "1.17^3:2" == "1" + ".17^3:2";
    SplitDigitsOf("1", ".17^3:2");
    assert ".17^3:2"[1..] == "17" + "^3:2";
    SplitDigitsOf("17", "^3:2");
  }

  /** 'value:type@1.17^3:2': the offset must be followed by '/' and a subdivision. */
  lemma CaretAfterOffsetIsRefused()
    ensures NoteFromString("value:type@1.17^3:2") == Failure(InvalidRecordFormat("value:type@1.17^3:2"))
  {
    assert "value:type@1.17^3:2" == "value:type" + ['@'] + "1.17^3:2";
    ReadAtFirstAt("value:type", "1.17^3:2");
    CaretPositionFields();
  }

  /** 'value@1' prints without a query, and 'value@1?aaa&' prints without its trailing '&'. */
  lemma BarOnlyNotePrints()
    ensures NoteToString(Note("value", None, BarPos(1), None, None)) == "value@1"
    ensures NoteToString(Note("value", None, BarPos(1), None, Some(["aaa"]))) == "value@1?aaa"
  {
    assert NoteHead(Note("value", None, BarPos(1), None, None)) == "value";
    assert SortStrings(["aaa"]) == ["aaa"];
  }

  // ---------------------------------------------------------------- positions

  /** '01': a bar with a leading zero is refused as a number. */
  lemma LeadingZeroBarIsRefused()
    ensures PositionFromString("01") == Failure(InvalidNumber("01"))
  {
    SplitDigitsOf("01", []);
    assert "01" + [] == "01";
    assert "01" == ['0'] + "1";
    LeadingZeroIsRefused("1");
  }

  lemma ThirdFields()
    ensures MatchPosition("1.1/3") == Some(PositionText("1", Some(GridText("1", "3", None)), None))
  {
    var f := PositionText("1", Some(GridText("1", "3", None)), None);
    MatchRendered(f);
    assert Render(f) == "1.1/3";
  }

  /** '1.1/3': 3 is not a subdivision. */
  lemma ThirdIsNoMeasure()
    ensures PositionFromString("1.1/3") == Failure(InvalidMeasureFormat("1.1/3"))
  {
    ThirdFields();
    assert DigitsValue("1") == 1 && DigitsValue("3") == 3;
  }

  function DupletText(): PositionText {
    PositionText("1", Some(GridText("1", "4", Some(TupletText("2", "1")))), None)
  }

  lemma DupletRender()
    ensures Render(DupletText()) == "1.1/4*2:1"
  {
  }

  lemma DupletRead(input: string)
    ensures PositionOfText(input, DupletText()) == Failure(InvalidTupletFormat(input))
  {
    assert DigitsValue("1") == 1 && DigitsValue("4") == 4 && DigitsValue("2") == 2;
  }

  /** '1.1/4*2:1': 2:1 is not a tuplet. */
  lemma DupletIsNoTuplet()
    ensures PositionFromString("1.1/4*2:1") == Failure(InvalidTupletFormat("1.1/4*2:1"))
  {
    MatchRendered(DupletText());
    DupletRender();
    DupletRead("1.1/4*2:1");
  }

  // ------------------------------------------------------ meter and bpm changes

  /** '6/4:meter@1', and the shortened keyword ':mete@' the pattern also accepts. */
  lemma SixFourMeter()
    ensures MeterChangeFromString(MeterChangeToString(MeterChange(Meter(6, 4), BarPos(1)))) ==
              Success(MeterChange(Meter(6, 4), BarPos(1)))
    ensures MeterChangeFromString(MeterChangeWith(MeterChange(Meter(6, 4), BarPos(1)), None)) ==
              Success(MeterChange(Meter(6, 4), BarPos(1)))
  {
    MeterChangeReadsBack(MeterChange(Meter(6, 4), BarPos(1)), Some('r'));
    MeterChangeReadsBack(MeterChange(Meter(6, 4), BarPos(1)), None);
  }

  /** '120:bpm@1.2/4', and the shortened keyword ':bp@'. */
  lemma DoubleTempo()
    ensures BpmChangeFromString(BpmChangeToString(BpmChange(120.0, RegularPos(1, 2, 4, None)))) ==
              Success(BpmChange(120.0, RegularPos(1, 2, 4, None)))
    ensures BpmChangeFromString(BpmChangeWith(BpmChange(120.0, RegularPos(1, 2, 4, None)), None)) ==
              Success(BpmChange(120.0, RegularPos(1, 2, 4, None)))
  {
    BpmChangeReadsBack(BpmChange(120.0, RegularPos(1, 2, 4, None)), Some('m'));
    BpmChangeReadsBack(BpmChange(120.0, RegularPos(1, 2, 4, None)), None);
  }

  lemma PaddedTempoFields()
    ensures MatchBpmChange("060:bpm@0") == Some(BpmChangeText(DecimalText("060", None), "0", PositionText("0", None, None)))
  {
    var f := PositionText("0", None, None);
    MatchRendered(f);
    assert Render(f) == "0";
    MatchBpmChangeRendered("060", Some('m'), f);
    assert "060" + KeywordRender(BPM_STEM, Some('m'), "0") == "060:bpm@0";
  }

  /** '060:bpm@0': the tempo is read leniently, so a leading zero is accepted. */
  lemma PaddedTempoIsAccepted()
    ensures BpmChangeFromString("060:bpm@0") == Success(BpmChange(60.0, BarPos(0)))
  {
    PaddedTempoFields();
    assert "060"[..2] == "06" && "06"[..1] == "0";
    assert DigitsValue("06") == 6;
    assert DigitsValue("060") == 60;
    assert DigitsValue("0") == 0;
  }
}
