/**
 * The two records that flow through the pipeline: a chat line as observed
 * (`RawMessage`, src/types/message.py) and a structured signal extracted from
 * it (`MarketSignal`, src/types/market_signal.py). The dataclass declares
 * five fields; storage and the CSV writers also read `specs`, `timestamp`,
 * `group`, `sender` and `raw_content`, which it does not declare. The record
 * here carries all ten, an undeclared one read as `None` when unset, where
 * Python raises `AttributeError`.
 */
module Types {
  import opened Wrappers
  import opened DateTimes

  /** `room` is `None` for a direct message. */
  datatype RawMessage = RawMessage(id: string, content: string, sender: string,
                                   room: Option<string>, timestamp: DateTime)

  /** What a signal's `timestamp` attribute may hold: a `datetime`, or some other value shown by `str()`. */
  datatype Stamp = At(dt: DateTime) | Other(repr: string)

  datatype MarketSignal = MarketSignal(
    rawMsgId: string,
    intent: string,
    item: Option<string>,
    price: Option<real>,
    confidence: Option<real>,
    specs: Option<string>,
    timestamp: Option<Stamp>,
    group: Option<string>,
    sender: Option<string>,
    rawContent: Option<string>)

  /**
   * The dataclass constructor `MarketSignal(raw_msg_id, intent, item, price,
   * confidence_score)`. The instance it builds has none of the five further
   * attributes; here they are `None`.
   */
  function NewSignal(rawMsgId: string, intent: string, item: Option<string>,
                     price: Option<real>, confidence: Option<real>): MarketSignal
  {
    MarketSignal(rawMsgId, intent, item, price, confidence, None, None, None, None, None)
  }

  /**
   * `ts.strftime("%Y-%m-%d %H:%M:%S") if isinstance(ts, datetime) else str(ts)`,
   * the time rendering shared by storage and both CSV writers.
   */
  function StampText(ts: Option<Stamp>): string
  {
    match ts
    case None => "None"
    case Some(At(dt)) => SqlFormat(dt)
    case Some(Other(repr)) => repr
  }

  /** Python truthiness of an optional string: neither `None` nor `""`. */
  predicate Truthy(s: Option<string>)
  {
    s.Some? && s.value != ""
  }
}
