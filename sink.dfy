/** The writer the image is printed to (`out: &mut W` with `W: io::Write`). Every write the
    renderer makes ends in exactly one newline, so the stream is kept as its list of lines,
    each without the newline. Writes cannot fail here. */
module Output {

  class Sink {
    var lines: seq<string>

    /** One `write!`/`writeln!` of a whole line. */
    method WriteLine(line: string)
      modifies this
      ensures lines == old(lines) + [line]
    {
      lines := lines + [line];
    }
  }

  /** The characters on the stream: every line followed by a newline. */
  function Stream(lines: seq<string>): string {
    if lines == [] then "" else lines[0] + "\n" + Stream(lines[1..])
  }

  /** Writing two batches of lines in turn puts their texts one after the other. */
  lemma {:induction false} StreamAppend(a: seq<string>, b: seq<string>)
    ensures Stream(a + b) == Stream(a) + Stream(b)
  {
    if a != [] {
      assert (a + b)[1..] == a[1..] + b;
      StreamAppend(a[1..], b);
    } else {
      assert a + b == b;
    }
  }
}
