/** The spellings of the test suite's templates and expected outputs as concatenations of
    their parts: a tag, its name, the text around it. Each is proved by joining two known
    strings at a time. */
module ExampleStrings {
  /** Joins two strings whose concatenation is known piecewise. */
  lemma Two(x: string, y: string, z: string)
    requires |z| == |x| + |y| && z[..|x|] == x && z[|x|..] == y
    ensures x + y == z
  {
  }

  lemma SingleTagConcat(text: string, n: string, inner: string, after: string)
    requires text == "Press " && n == "red" && inner == "ENTER" && after == ""
    ensures text + "<" + n + ">" + inner + "</" + n + ">" + after == "Press <red>ENTER</red>"
  {
    Two(text + "<" + n, ">", "Press <red>");
    Two(text + "<" + n + ">", inner, "Press <red>ENTER");
    Two(text + "<" + n + ">" + inner + "</" + n, ">", "Press <red>ENTER</red>");
    Two(text + "<" + n + ">" + inner + "</" + n + ">", after, "Press <red>ENTER</red>");
  }

  lemma BoldSingleTagConcat(text: string, n: string, inner: string, after: string)
    requires text == "Press " && n == "bold" && inner == "ENTER" && after == ""
    ensures text + "<" + n + ">" + inner + "</" + n + ">" + after == "Press <bold>ENTER</bold>"
  {
    Two(text + "<" + n, ">", "Press <bold>");
    Two(text + "<" + n + ">", inner, "Press <bold>ENTER");
    Two(text + "<" + n + ">" + inner + "</" + n, ">", "Press <bold>ENTER</bold>");
    Two(text + "<" + n + ">" + inner + "</" + n + ">", after, "Press <bold>ENTER</bold>");
  }

  lemma NewlineConcat(open: string, x: string, nl: string, y: string, close: string)
    requires open == "<red>" && x == "a" && nl == "\n" && y == "b" && close == "</red>"
    ensures open + (x + nl + y + close) == "<red>a\nb</red>"
    ensures (x + nl + y + close)[7..] == "d>"
  {
    Two(x, nl, "a\n");
    Two(x + nl, y, "a\nb");
    Two(x + nl + y, close, "a\nb</red>");
    Two(open, "a\nb</red>", "<red>a\nb</red>");
  }

  lemma RepeatedNestedConcat(text: string, n: string, inner: string, after: string)
    requires text == "Press " && n == "red" && inner == "<bold>ENTER</bold>" && after == " or <bold><red>ESC</red></bold>"
    ensures text + "<" + n + ">" + inner + "</" + n + ">" + after == "Press <red><bold>ENTER</bold></red> or <bold><red>ESC</red></bold>"
  {
    RepeatedNestedHead(text, n, inner);
    RepeatedNestedTail(text + "<" + n + ">" + inner + "</" + n + ">", after);
  }

  lemma RepeatedNestedHead(text: string, n: string, inner: string)
    requires text == "Press " && n == "red" && inner == "<bold>ENTER</bold>"
    ensures text + "<" + n + ">" + inner + "</" + n + ">" == "Press <red><bold>ENTER</bold></red>"
  {
    Two(text + "<" + n, ">", "Press <red>");
    Two(text + "<" + n + ">", inner, "Press <red><bold>ENTER</bold>");
    Two(text + "<" + n + ">" + inner + "</" + n, ">", "Press <red><bold>ENTER</bold></red>");
  }

  lemma RepeatedNestedTail(x: string, y: string)
    requires x == "Press <red><bold>ENTER</bold></red>" && y == " or <bold><red>ESC</red></bold>"
    ensures x + y == "Press <red><bold>ENTER</bold></red> or <bold><red>ESC</red></bold>"
  {
    Two(x, y, "Press <red><bold>ENTER</bold></red> or <bold><red>ESC</red></bold>");
  }

  lemma PressOrConcat(a: string, b: string, c: string, d: string)
    requires a == "Press " && b == "$**ENTER**$" && c == " or " && d == "**$ESC$**"
    ensures a + b + c + d == "Press $**ENTER**$ or **$ESC$**"
  {
    Two(a, b, "Press $**ENTER**$");
    Two(a + b, c, "Press $**ENTER**$ or ");
    Two(a + b + c, d, "Press $**ENTER**$ or **$ESC$**");
  }

  lemma OrRedEscConcat(text: string, n: string, inner: string, after: string)
    requires text == " or " && n == "red" && inner == "ESC" && after == ""
    ensures text + "<" + n + ">" + inner + "</" + n + ">" + after == " or <red>ESC</red>"
  {
    Two(text + "<" + n, ">", " or <red>");
    Two(text + "<" + n + ">", inner, " or <red>ESC");
    Two(text + "<" + n + ">" + inner + "</" + n, ">", " or <red>ESC</red>");
    Two(text + "<" + n + ">" + inner + "</" + n + ">", after, " or <red>ESC</red>");
  }

  lemma RepeatedTagConcat(text: string, n: string, inner: string, after: string)
    requires text == "Press " && n == "red" && inner == "ENTER" && after == " or <red>ESC</red>"
    ensures text + "<" + n + ">" + inner + "</" + n + ">" + after == "Press <red>ENTER</red> or <red>ESC</red>"
  {
    Two(text + "<" + n, ">", "Press <red>");
    Two(text + "<" + n + ">", inner, "Press <red>ENTER");
    Two(text + "<" + n + ">" + inner + "</" + n, ">", "Press <red>ENTER</red>");
    Two(text + "<" + n + ">" + inner + "</" + n + ">", after, "Press <red>ENTER</red> or <red>ESC</red>");
  }

  lemma PressOrConcatRed(a: string, b: string, c: string, d: string)
    requires a == "Press " && b == "$**ENTER**$" && c == " or " && d == "$**ESC**$"
    ensures a + b + c + d == "Press $**ENTER**$ or $**ESC**$"
  {
    Two(a, b, "Press $**ENTER**$");
    Two(a + b, c, "Press $**ENTER**$ or ");
    Two(a + b + c, d, "Press $**ENTER**$ or $**ESC**$");
  }

  lemma ShoutConcat(a: string, b: string, c: string, d: string)
    requires a == "(PRESS )" && b == "$(ENTER)$" && c == "( OR )" && d == "$(ESC)$"
    ensures a + b + c + d == "(PRESS )$(ENTER)$( OR )$(ESC)$"
  {
    Two(a, b, "(PRESS )$(ENTER)$");
    Two(a + b, c, "(PRESS )$(ENTER)$( OR )");
    Two(a + b + c, d, "(PRESS )$(ENTER)$( OR )$(ESC)$");
  }

  lemma BoldOpenConcat(text: string, n: string, rest: string)
    requires text == "" && n == "bold" && rest == "ENTER</bold>"
    ensures text + "<" + n + ">" == "<bold>"
    ensures text + "<" + n + ">" + rest == "<bold>ENTER</bold>"
  {
    Two(text + "<" + n, ">", "<bold>");
    Two(text + "<" + n + ">", rest, "<bold>ENTER</bold>");
  }

  lemma OrBoldOpenConcat(text: string, n: string, rest: string)
    requires text == " or " && n == "bold" && rest == "<red>ESC</red></bold>"
    ensures text + "<" + n + ">" == " or <bold>"
    ensures text + "<" + n + ">" + rest == " or <bold><red>ESC</red></bold>"
  {
    OrBoldOpen(text, n);
    OrBoldTail(text + "<" + n + ">", rest);
  }

  lemma OrBoldOpen(text: string, n: string)
    requires text == " or " && n == "bold"
    ensures text + "<" + n + ">" == " or <bold>"
  {
    Two(text + "<" + n, ">", " or <bold>");
  }

  lemma OrBoldTail(x: string, y: string)
    requires x == " or <bold>" && y == "<red>ESC</red></bold>"
    ensures x + y == " or <bold><red>ESC</red></bold>"
  {
    Two(x, y, " or <bold><red>ESC</red></bold>");
  }

  lemma RedEscBoldConcat(text: string, n: string, inner: string, after: string)
    requires text == "" && n == "red" && inner == "ESC" && after == "</bold>"
    ensures text + "<" + n + ">" + inner + "</" + n + ">" + after == "<red>ESC</red></bold>"
  {
    Two(text + "<" + n, ">", "<red>");
    Two(text + "<" + n + ">", inner, "<red>ESC");
    Two(text + "<" + n + ">" + inner + "</" + n, ">", "<red>ESC</red>");
    Two(text + "<" + n + ">" + inner + "</" + n + ">", after, "<red>ESC</red></bold>");
  }

  lemma BoldEnterJoined(x: string, y: string)
    requires x == "<bold>" && y == "ENTER</bold>"
    ensures x + y == "<bold>ENTER</bold>"
  {
    Two(x, y, "<bold>ENTER</bold>");
  }

  lemma LeaveIntactConcat(a: string, b: string, c: string, d: string, e: string)
    requires a == "Press " && b == "$<bold>ENTER</bold>$" && c == " or <bold>" && d == "$ESC$" && e == "</bold>"
    ensures a + b + c + d + e == "Press $<bold>ENTER</bold>$ or <bold>$ESC$</bold>"
  {
    Two(a, b, "Press $<bold>ENTER</bold>$");
    Two(a + b, c, "Press $<bold>ENTER</bold>$ or <bold>");
    Two(a + b + c, d, "Press $<bold>ENTER</bold>$ or <bold>$ESC$");
    Two(a + b + c + d, e, "Press $<bold>ENTER</bold>$ or <bold>$ESC$</bold>");
  }

  lemma BadSyntaxConcat(text: string, n: string, inner: string, after: string)
    requires text == "Press " && n == "red" && inner == "ENTER</bold>" && after == " or <bold><red>ESC</red></penguins></>"
    ensures text + "<" + n + ">" + inner + "</" + n + ">" + after == "Press <red>ENTER</bold></red> or <bold><red>ESC</red></penguins></>"
  {
    BadSyntaxHead(text, n, inner);
    OrBoldPenguinsTail(" or <bold>", "<red>ESC</red></penguins></>");
    BadSyntaxTail(text + "<" + n + ">" + inner + "</" + n + ">", " or <bold>", "<red>ESC</red></penguins></>");
  }

  lemma BadSyntaxHead(text: string, n: string, inner: string)
    requires text == "Press " && n == "red" && inner == "ENTER</bold>"
    ensures text + "<" + n + ">" + inner + "</" + n + ">" == "Press <red>ENTER</bold></red>"
  {
    Two(text + "<" + n, ">", "Press <red>");
    Two(text + "<" + n + ">", inner, "Press <red>ENTER</bold>");
    Two(text + "<" + n + ">" + inner + "</" + n, ">", "Press <red>ENTER</bold></red>");
  }

  lemma BadSyntaxTail(x: string, y1: string, y2: string)
    requires x == "Press <red>ENTER</bold></red>" && y1 == " or <bold>" && y2 == "<red>ESC</red></penguins></>"
    ensures x + (y1 + y2) == "Press <red>ENTER</bold></red> or <bold><red>ESC</red></penguins></>"
  {
    Two(x, y1, "Press <red>ENTER</bold></red> or <bold>");
    Two(x + y1, y2, "Press <red>ENTER</bold></red> or <bold><red>ESC</red></penguins></>");
    assert x + (y1 + y2) == x + y1 + y2;
  }

  lemma OrBoldPenguinsConcat(text: string, n: string, rest: string)
    requires text == " or " && n == "bold" && rest == "<red>ESC</red></penguins></>"
    ensures text + "<" + n + ">" == " or <bold>"
    ensures text + "<" + n + ">" + rest == " or <bold><red>ESC</red></penguins></>"
  {
    OrBoldOpen(text, n);
    OrBoldPenguinsTail(text + "<" + n + ">", rest);
  }

  lemma OrBoldPenguinsTail(x: string, y: string)
    requires x == " or <bold>" && y == "<red>ESC</red></penguins></>"
    ensures x + y == " or <bold><red>ESC</red></penguins></>"
  {
    Two(x, y, " or <bold><red>ESC</red></penguins></>");
  }

  lemma RedEscPenguinsConcat(text: string, n: string, inner: string, after: string)
    requires text == "" && n == "red" && inner == "ESC" && after == "</penguins></>"
    ensures text + "<" + n + ">" + inner + "</" + n + ">" + after == "<red>ESC</red></penguins></>"
  {
    Two(text + "<" + n, ">", "<red>");
    Two(text + "<" + n + ">", inner, "<red>ESC");
    Two(text + "<" + n + ">" + inner + "</" + n, ">", "<red>ESC</red>");
    Two(text + "<" + n + ">" + inner + "</" + n + ">", after, "<red>ESC</red></penguins></>");
  }

  lemma BadSyntaxOutputConcat(a: string, b: string, c: string, d: string, e: string)
    requires a == "Press " && b == "$ENTER</bold>$" && c == " or <bold>" && d == "$ESC$" && e == "</penguins></>"
    ensures a + b + c + d + e == "Press $ENTER</bold>$ or <bold>$ESC$</penguins></>"
  {
    Two(a, b, "Press $ENTER</bold>$");
    Two(a + b, c, "Press $ENTER</bold>$ or <bold>");
    Two(a + b + c, d, "Press $ENTER</bold>$ or <bold>$ESC$");
    Two(a + b + c + d, e, "Press $ENTER</bold>$ or <bold>$ESC$</penguins></>");
  }

  lemma OrBoldConcat()
    ensures " or " + "<" + "bold" + ">" + "<red>ESC</red>" + "</" + "bold" + ">" + "" == " or <bold><red>ESC</red></bold>"
  {
  }
}
