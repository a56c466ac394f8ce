/**
 * The two situations the directive filter is written for: a tuplet's
 * `%%beamslope 1` immediately overridden, and the same annotation font set
 * again before every annotation.
 */
module DirectivesExamples {
  import opened Texts
  import opened Trimming
  import opened Directives

  /** Trimming a space off the front of a value that has no white space at its ends. */
  lemma TrimAfterSpace(value: string)
    requires Tight(value)
    ensures Trim(" " + value) == value
  {
    var s := " " + value;
    assert IsSpace(s[0]) && s[1..] == value;
    assert TrimStart(s) == TrimStart(value);
    assert TrimStart(value) == value;
  }

  /** A `%%name value` line reads as that directive setting that value. */
  lemma SettingLine(name: string, value: string)
    requires StartsWith(name, "%%") && ' ' !in name && Tight(value)
    ensures Classify(name + " " + value) == Setting(name + " " + value, name, value)
  {
    var l := name + " " + value;
    FirstIndexAfter(name, ' ', value);
    assert l[..|name|] == name;
    assert l[..2] == name[..2];
    assert l[|name|..] == " " + value;
    TrimAfterSpace(value);
  }

  /** `%%beamslope 1` followed by `%%beamslope 0`: only the second is written. */
  lemma OverriddenSlopeIsDropped()
    ensures var ls := [Setting("%%beamslope 1", "%%beamslope", "1"),
                       Setting("%%beamslope 0", "%%beamslope", "0"),
                       Text("F/8")];
            TextsOf(KeptPrefix(ls, 3)) == ["%%beamslope 0", "F/8"]
  {
    var ls := [Setting("%%beamslope 1", "%%beamslope", "1"),
               Setting("%%beamslope 0", "%%beamslope", "0"),
               Text("F/8")];
    assert StartsWith(ls[1].text, ls[0].name);
    assert !Keeps(ls, 0);
    assert LastSet(ls, 1) == map[];
    assert Keeps(ls, 1);
    assert Keeps(ls, 2);
  }

  /** The same annotation font set twice in a row of annotations is written once. */
  lemma RepeatedFontIsDropped()
    ensures var font := Setting("%%annotationfont * 12 nobox", "%%annotationfont", "* 12 nobox");
            var ls := [font, Text("\"^H\"z"), font, Text("\"^K\"z")];
            TextsOf(KeptPrefix(ls, 4)) == [font.text, "\"^H\"z", "\"^K\"z"]
  {
    var font := Setting("%%annotationfont * 12 nobox", "%%annotationfont", "* 12 nobox");
    var ls := [font, Text("\"^H\"z"), font, Text("\"^K\"z")];
    assert !StartsWith(ls[1].text, font.name);
    assert !StartsWith(ls[3].text, font.name);
    assert Keeps(ls, 0);
    assert LastSet(ls, 1) == map[font.name := font.value];
    assert Keeps(ls, 1);
    assert LastSet(ls, 2) == map[font.name := font.value];
    assert !Keeps(ls, 2);
    assert LastSet(ls, 3) == map[font.name := font.value];
    assert Keeps(ls, 3);
    assert KeptPrefix(ls, 1) == [font];
    assert KeptPrefix(ls, 2) == [font, ls[1]];
    assert KeptPrefix(ls, 3) == [font, ls[1]];
    assert KeptPrefix(ls, 4) == [font, ls[1], ls[3]];
  }

  /** Both example lines read as the settings used above. */
  lemma FontLineReads()
    ensures Classify("%%annotationfont * 12 nobox")
            == Setting("%%annotationfont * 12 nobox", "%%annotationfont", "* 12 nobox")
  {
    assert "%%annotationfont * 12 nobox" == "%%annotationfont" + " " + "* 12 nobox";
    SettingLine("%%annotationfont", "* 12 nobox");
  }
}
