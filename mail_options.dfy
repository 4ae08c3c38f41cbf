/**
  The mail envelope builder (src/models/MailOptions.js). `text` and `html`
  start as `null`; `getObject` sends html when there is html, text otherwise.
 */
module Mail {
  import opened Wrappers

  /** The exported `types` map from MIME type to content kind. */
  const Types: map<string, string> := map["text/plain" := "text", "text/html" := "html"]

  /** The object `getObject` returns: it has either an `html` or a `text` field. */
  datatype Envelope =
    | Html(from: string, to: string, subject: string, html: string)
    | Text(from: string, to: string, subject: string, text: Option<string>)

  /** `types` names exactly the two content kinds and maps each MIME type to its own. */
  lemma TypesTable()
    ensures Types.Keys == {"text/plain", "text/html"}
    ensures Types["text/plain"] == "text" && Types["text/html"] == "html"
  {
  }

  class MailOptions {
    var from: string
    var to: string
    var subject: string
    var text: Option<string>
    var html: Option<string>

    constructor (from: string, to: string, subject: string)
      ensures this.from == from && this.to == to && this.subject == subject
      ensures text == None && html == None
    {
      this.from := from;
      this.to := to;
      this.subject := subject;
      this.text := None;
      this.html := None;
    }

    /**
      The `'html'` case has no `break` and falls through into `default`, so
      html content is stored in both fields; every other type stores text only.
     */
    method SetContent(kind: string, content: string)
      modifies this
      ensures from == old(from) && to == old(to) && subject == old(subject)
      ensures text == Some(content)
      ensures html == if kind == "html" then Some(content) else old(html)
    {
      if kind == "text" {
        text := Some(content);
      } else {
        if kind == "html" {
          html := Some(content);
        }
        text := Some(content);
      }
    }

    function GetObject(): (env: Envelope)
      reads this
      ensures env.Html? <==> html.Some?
      ensures env.from == from && env.to == to && env.subject == subject
      ensures env.Html? ==> Some(env.html) == html
      ensures env.Text? ==> env.text == text
    {
      if html != None then Html(from, to, subject, html.value)
      else Text(from, to, subject, text)
    }
  }

  /**
    A fresh envelope with one `setContent`: the content always reaches the
    message, as html exactly when the kind is "html".
   */
  method Compose(from: string, to: string, subject: string, kind: string, content: string)
    returns (env: Envelope)
    ensures env == if kind == "html" then Html(from, to, subject, content)
                   else Text(from, to, subject, Some(content))
  {
    var options := new MailOptions(from, to, subject);
    options.SetContent(kind, content);
    env := options.GetObject();
  }

  /**
    Once html is set, a later text `setContent` does not reach the message:
    `getObject` still returns the earlier html.
   */
  method TextAfterHtml(from: string, to: string, subject: string, page: string, plain: string)
    returns (env: Envelope)
    ensures env == Html(from, to, subject, page)
  {
    var options := new MailOptions(from, to, subject);
    options.SetContent("html", page);
    options.SetContent("text", plain);
    env := options.GetObject();
  }
}
