/**
 * The outward effects of a dispatch that leave the extension's storage: a clipboard write
 * and a message to a browser tab. Their delivery (offscreen document, content script,
 * retries) is not modelled; each request is recorded, in order, in a trace.
 */
module Effects {

  /** The `data` part of the `showMatchNotification` message a tab receives. */
  datatype NotificationMessage = NotificationMessage(action: string, rulePattern: string, value: string, url: string)

  datatype Effect =
    | CopyToClipboard(text: string)
    | SendToTab(tabId: int, message: NotificationMessage)

  /** The sequence of effects requested so far. */
  class EffectLog {
    var trace: seq<Effect>

    constructor ()
      ensures trace == []
    {
      trace := [];
    }

    /** Requests one effect (`copyToClipboardV2(text)` or `sendToTab(tabId, message)`). */
    method Record(effect: Effect)
      modifies this
      ensures trace == old(trace) + [effect]
    {
      trace := trace + [effect];
    }
  }
}
