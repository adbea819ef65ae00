/**
 * The fixed text of the badge picture: the literal parts of `SVG_HEADER` and
 * `SVG_BORDER` (the text between their `#name#` placeholders) and
 * `SVG_FOOTER`, character for character, one SVG line or part of a line per
 * string.
 *
 * Each part comes with a proof that it is plain text: it holds neither `#`
 * nor `_`, so a `#name#` placeholder can neither begin in it nor fit in it.
 * The proofs go a few lines at a time, which keeps each one small.
 */
module SvgText {
  import opened Strings

  const HeaderLit0 :=
    "<?xml version=\"1.0\" encodi"
    + "ng=\"utf-8\"?>\n"
    + "<svg "

  lemma HeaderLit0Plain()
    ensures Plain(HeaderLit0)
  {
    PlainJoin("<?xml version=\"1.0\" encodi", "ng=\"utf-8\"?>\n", "<svg ", "");
  }

  const HeaderLit1a :=
    " xmlns=\"http://www.w3.org/"
    + "2000/svg\">\n"
    + "  <defs>\n"
    + "    <style>\n"

  lemma HeaderLit1aPlain()
    ensures Plain(HeaderLit1a)
  {
    PlainJoin(" xmlns=\"http://www.w3.org/", "2000/svg\">\n", "  <defs>\n", "    <style>\n");
  }

  const HeaderLit1b :=
    "        text {\n"
    + "            fill: "

  lemma HeaderLit1bPlain()
    ensures Plain(HeaderLit1b)
  {
    PlainJoin("        text {\n", "            fill: ", "", "");
  }

  const HeaderLit1 :=
    HeaderLit1a
    + HeaderLit1b

  lemma HeaderLit1Plain()
    ensures Plain(HeaderLit1)
  {
    HeaderLit1aPlain();
    HeaderLit1bPlain();
    PlainJoin(HeaderLit1a, HeaderLit1b, "", "");
  }

  const HeaderLit2a :=
    ";\n"
    + "            font-weight: 9"
    + "00 !important;\n"
    + "            font-family: s"

  lemma HeaderLit2aPlain()
    ensures Plain(HeaderLit2a)
  {
    PlainJoin(";\n", "            font-weight: 9", "00 !important;\n", "            font-family: s");
  }

  const HeaderLit2b :=
    "ystem-ui, BlinkMacSystemFo"
    + "nt, 'Segoe UI', Roboto, 'H"
    + "elvetica Neue', Ubuntu, Ar"
    + "ial, sans-serif;\n"

  lemma HeaderLit2bPlain()
    ensures Plain(HeaderLit2b)
  {
    PlainJoin("ystem-ui, BlinkMacSystemFo", "nt, 'Segoe UI', Roboto, 'H", "elvetica Neue', Ubuntu, Ar", "ial, sans-serif;\n");
  }

  const HeaderLit2c :=
    "        }\n"
    + "        .fill-black {\n"
    + "            fill: "

  lemma HeaderLit2cPlain()
    ensures Plain(HeaderLit2c)
  {
    PlainJoin("        }\n", "        .fill-black {\n", "            fill: ", "");
  }

  const HeaderLit2 :=
    HeaderLit2a
    + HeaderLit2b
    + HeaderLit2c

  lemma HeaderLit2Plain()
    ensures Plain(HeaderLit2)
  {
    HeaderLit2aPlain();
    HeaderLit2bPlain();
    HeaderLit2cPlain();
    PlainJoin(HeaderLit2a, HeaderLit2b, HeaderLit2c, "");
  }

  const HeaderLit3 :=
    "\n"
    + "        }\n"
    + "        .fill-white {\n"
    + "            fill: "

  lemma HeaderLit3Plain()
    ensures Plain(HeaderLit3)
  {
    PlainJoin("\n", "        }\n", "        .fill-white {\n", "            fill: ");
  }

  const HeaderLit4a :=
    "\n"
    + "        }\n"
    + "        @media (prefers-co"
    + "lor-scheme: dark) {\n"

  lemma HeaderLit4aPlain()
    ensures Plain(HeaderLit4a)
  {
    PlainJoin("\n", "        }\n", "        @media (prefers-co", "lor-scheme: dark) {\n");
  }

  const HeaderLit4b :=
    "            text {\n"
    + "                fill: "

  lemma HeaderLit4bPlain()
    ensures Plain(HeaderLit4b)
  {
    PlainJoin("            text {\n", "                fill: ", "", "");
  }

  const HeaderLit4 :=
    HeaderLit4a
    + HeaderLit4b

  lemma HeaderLit4Plain()
    ensures Plain(HeaderLit4)
  {
    HeaderLit4aPlain();
    HeaderLit4bPlain();
    PlainJoin(HeaderLit4a, HeaderLit4b, "", "");
  }

  const HeaderLit5 :=
    "\n"
    + "            }\n"
    + "            .fill-black {\n"
    + "                fill: "

  lemma HeaderLit5Plain()
    ensures Plain(HeaderLit5)
  {
    PlainJoin("\n", "            }\n", "            .fill-black {\n", "                fill: ");
  }

  const HeaderLit6 :=
    "\n"
    + "            }\n"
    + "            .fill-white {\n"
    + "                fill: "

  lemma HeaderLit6Plain()
    ensures Plain(HeaderLit6)
  {
    PlainJoin("\n", "            }\n", "            .fill-white {\n", "                fill: ");
  }

  const HeaderLit7a :=
    "\n"
    + "            }\n"
    + "        }\n"
    + "    </style>\n"

  lemma HeaderLit7aPlain()
    ensures Plain(HeaderLit7a)
  {
    PlainJoin("\n", "            }\n", "        }\n", "    </style>\n");
  }

  const HeaderLit7b :=
    "  </defs>\n"
    + "  "

  lemma HeaderLit7bPlain()
    ensures Plain(HeaderLit7b)
  {
    PlainJoin("  </defs>\n", "  ", "", "");
  }

  const HeaderLit7 :=
    HeaderLit7a
    + HeaderLit7b

  lemma HeaderLit7Plain()
    ensures Plain(HeaderLit7)
  {
    HeaderLit7aPlain();
    HeaderLit7bPlain();
    PlainJoin(HeaderLit7a, HeaderLit7b, "", "");
  }

  const HeaderLit8a :=
    "\n"
    + "  <g transform=\"matrix(1, "
    + "0, 0, 1, 1.062999, 0.15599"
    + "9)\" fill=\"none\" fill-rule="

  lemma HeaderLit8aPlain()
    ensures Plain(HeaderLit8a)
  {
    PlainJoin("\n", "  <g transform=\"matrix(1, ", "0, 0, 1, 1.062999, 0.15599", "9)\" fill=\"none\" fill-rule=");
  }

  const HeaderLit8b :=
    "\"evenodd\">\n"
    + "    <circle class=\"fill-bl"
    + "ack\" cx=\"54.5\" cy=\"54.5\" r"
    + "=\"48.5\"/>\n"

  lemma HeaderLit8bPlain()
    ensures Plain(HeaderLit8b)
  {
    PlainJoin("\"evenodd\">\n", "    <circle class=\"fill-bl", "ack\" cx=\"54.5\" cy=\"54.5\" r", "=\"48.5\"/>\n");
  }

  const HeaderLit8c :=
    "    <g class=\"fill-white\" "
    + "transform=\"translate(19.58"
    + "7 30.779)\">\n"
    + "      <circle cx=\"14.861\" "

  lemma HeaderLit8cPlain()
    ensures Plain(HeaderLit8c)
  {
    PlainJoin("    <g class=\"fill-white\" ", "transform=\"translate(19.58", "7 30.779)\">\n", "      <circle cx=\"14.861\" ");
  }

  const HeaderLit8d :=
    "cy=\"13.861\" r=\"8.861\"/>\n"
    + "      <circle cx=\"54.966\" "
    + "cy=\"13.861\" r=\"8.861\"/>\n"
    + "    </g>\n"

  lemma HeaderLit8dPlain()
    ensures Plain(HeaderLit8d)
  {
    PlainJoin("cy=\"13.861\" r=\"8.861\"/>\n", "      <circle cx=\"54.966\" ", "cy=\"13.861\" r=\"8.861\"/>\n", "    </g>\n");
  }

  const HeaderLit8e :=
    "    <rect class=\"fill-whit"
    + "e\" x=\"31.5\" y=\"71.2\" width"
    + "=\"47\" height=\"8.529\" rx=\"5"
    + "\"/>\n"

  lemma HeaderLit8ePlain()
    ensures Plain(HeaderLit8e)
  {
    PlainJoin("    <rect class=\"fill-whit", "e\" x=\"31.5\" y=\"71.2\" width", "=\"47\" height=\"8.529\" rx=\"5", "\"/>\n");
  }

  const HeaderLit8 :=
    HeaderLit8a
    + HeaderLit8b
    + HeaderLit8c
    + HeaderLit8d
    + HeaderLit8e

  lemma HeaderLit8Plain()
    ensures Plain(HeaderLit8)
  {
    HeaderLit8aPlain();
    HeaderLit8bPlain();
    HeaderLit8cPlain();
    HeaderLit8dPlain();
    HeaderLit8ePlain();
    PlainJoin(HeaderLit8a, HeaderLit8b, HeaderLit8c, HeaderLit8d);
    PlainJoin(HeaderLit8a + HeaderLit8b + HeaderLit8c + HeaderLit8d, HeaderLit8e, "", "");
  }

  const BorderLit0a :=
    "\n"
    + "<rect class=\"fill-white\" w"
    + "idth=\"577.762\" height=\"110"
    + "\" style=\"stroke: rgb(189, "

  lemma BorderLit0aPlain()
    ensures Plain(BorderLit0a)
  {
    PlainJoin("\n", "<rect class=\"fill-white\" w", "idth=\"577.762\" height=\"110", "\" style=\"stroke: rgb(189, ");
  }

  const BorderLit0b :=
    "14, 43); stroke-width: 5;\""
    + " rx=\"50\"/>\n"
    + "<text style=\"font-size: 38"
    + "px; white-space: pre; text"

  lemma BorderLit0bPlain()
    ensures Plain(BorderLit0b)
  {
    PlainJoin("14, 43); stroke-width: 5;\"", " rx=\"50\"/>\n", "<text style=\"font-size: 38", "px; white-space: pre; text");
  }

  const BorderLit0c :=
    "-anchor: middle;\" x=\"335\" "
    + "y=\"48.074\">"

  lemma BorderLit0cPlain()
    ensures Plain(BorderLit0c)
  {
    PlainJoin("-anchor: middle;\" x=\"335\" ", "y=\"48.074\">", "", "");
  }

  const BorderLit0 :=
    BorderLit0a
    + BorderLit0b
    + BorderLit0c

  lemma BorderLit0Plain()
    ensures Plain(BorderLit0)
  {
    BorderLit0aPlain();
    BorderLit0bPlain();
    BorderLit0cPlain();
    PlainJoin(BorderLit0a, BorderLit0b, BorderLit0c, "");
  }

  const BorderLit1a :=
    " \U{1F971}</text>\n"
    + "<text style=\"font-size: 24"
    + "px; white-space: pre; font"
    + "-style: italic; text-ancho"

  lemma BorderLit1aPlain()
    ensures Plain(BorderLit1a)
  {
    PlainJoin(" \U{1F971}</text>\n", "<text style=\"font-size: 24", "px; white-space: pre; font", "-style: italic; text-ancho");
  }

  const BorderLit1b :=
    "r: middle;\" x=\"335\" y=\"91."
    + "615\">UV: "

  lemma BorderLit1bPlain()
    ensures Plain(BorderLit1b)
  {
    PlainJoin("r: middle;\" x=\"335\" y=\"91.", "615\">UV: ", "", "");
  }

  const BorderLit1 :=
    BorderLit1a
    + BorderLit1b

  lemma BorderLit1Plain()
    ensures Plain(BorderLit1)
  {
    BorderLit1aPlain();
    BorderLit1bPlain();
    PlainJoin(BorderLit1a, BorderLit1b, "", "");
  }

  const BorderLit2 :=
    "  Referrer: "

  lemma BorderLit2Plain()
    ensures Plain(BorderLit2)
  {
    PlainJoin("  Referrer: ", "", "", "");
  }

  const BorderLit3 :=
    "  Level: "

  lemma BorderLit3Plain()
    ensures Plain(BorderLit3)
  {
    PlainJoin("  Level: ", "", "", "");
  }

  const BorderLit4 :=
    "</text>\n"

  lemma BorderLit4Plain()
    ensures Plain(BorderLit4)
  {
    PlainJoin("</text>\n", "", "", "");
  }

  const FooterText :=
    "\n"
    + "    </g>\n"
    + "  \n"
    + "</svg>"

  lemma FooterTextPlain()
    ensures Plain(FooterText)
  {
    PlainJoin("\n", "    </g>\n", "  \n", "</svg>");
  }
}
