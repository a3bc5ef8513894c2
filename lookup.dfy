/**
 * The lyrics lookup client `fetch` (main.py:49-64). The HTTP request is
 * outside the model: its result enters as the status code and the decoded
 * JSON object (keys to the text of their values), and the clock reading as
 * the already formatted timestamp.
 */
module Lookup {
  import opened Wrappers
  import opened Text

  /** The three keys a usable response must hold. */
  predicate HasLyricsFields(content: map<string, string>)
  {
    "title" in content && "author" in content && "lyrics" in content
  }

  /** The text block built from a usable response (main.py:57-62). */
  function FormatBlock(title: string, author: string, lyrics: string, retrieved: string): (block: string)
    ensures StartsWith(block, "Title: " + title)
  {
    "Title: " + title + "\n" + "Author: " + author + "\n" + "\n" + lyrics + "\n" + "Retrieved on: " + retrieved
  }

  /**
   * `fetch` after the request: the empty string for any status other than
   * 200, the formatted block for a 200 response with all three keys, and
   * nothing at all (Python's implicit `None`) for a 200 response that lacks
   * one of them.
   */
  function Fetch(status: int, content: map<string, string>, retrieved: string): (r: Option<string>)
    ensures r == Some("") <==> status != 200
    ensures r == None <==> status == 200 && !HasLyricsFields(content)
    ensures r.Some? && r.value != "" ==>
              HasLyricsFields(content)
              && r.value == FormatBlock(content["title"], content["author"], content["lyrics"], retrieved)
  {
    if status == 200 then
      if HasLyricsFields(content) then
        Some(FormatBlock(content["title"], content["author"], content["lyrics"], retrieved))
      else
        None
    else
      Some("")
  }

  /** The block up to the retrieval line: title, author, a blank line and the lyrics' lines. */
  lemma BlockBodyLines(title: string, author: string, lyrics: string)
    requires '\n' !in title && '\n' !in author
    ensures Split("Title: " + title + "\n" + "Author: " + author + "\n" + "\n" + lyrics, '\n')
            == ["Title: " + title, "Author: " + author, ""] + Split(lyrics, '\n')
  {
    var heading := "Title: " + title;
    var byline := heading + "\n" + "Author: " + author;
    SplitWithoutSeparator(heading, '\n');
    SplitAppendLine(heading, "Author: ", author, '\n');
    SplitBlankLine(byline, lyrics, '\n');
  }

  /**
   * Read line by line, the block gives back every field: the title line,
   * the author line, a blank line, the lyrics' own lines and the retrieval
   * line.
   */
  lemma FormatBlockLines(title: string, author: string, lyrics: string, retrieved: string)
    requires '\n' !in title && '\n' !in author && '\n' !in retrieved
    ensures Split(FormatBlock(title, author, lyrics, retrieved), '\n')
            == ["Title: " + title, "Author: " + author, ""] + Split(lyrics, '\n') + ["Retrieved on: " + retrieved]
  {
    BlockBodyLines(title, author, lyrics);
    SplitAppendLine("Title: " + title + "\n" + "Author: " + author + "\n" + "\n" + lyrics, "Retrieved on: ", retrieved, '\n');
  }
}
