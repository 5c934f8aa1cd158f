/**
 The detection record that flows from the detector through the maturity analysis into the
 reports and the annotated image. The repository keeps it as a Python dict; here every key
 the pipeline reads or writes is a field, and a key that may be absent is an `Option` or a `Tag`.
 */
module Detections {
  import opened Wrappers

  /** The maturity labels the pipeline writes, in the repository's own (Spanish) words. */
  datatype Maturity = Maduro | SemiMaduro | NoMaduro | Unknown {

    /** The label string stored in a detection and counted by the reports. */
    function Name(): (s: string)
      ensures |s| > 0
    {
      match this
      case Maduro => "maduro"
      case SemiMaduro => "semimaduro"
      case NoMaduro => "no_maduro"
      case Unknown => "unknown"
    }
  }

  /** The three labels a detector may assign itself; the colour heuristic never overrides them. */
  predicate IsModelLabel(s: string) {
    s == "maduro" || s == "semimaduro" || s == "no_maduro"
  }

  /**
   The 'maturity' entry of a detection: the key is absent (colour detections), present but
   `None` (a detector box whose class is not a maturity class), or a label string.
   */
  datatype Tag = Missing | Null | Named(value: string)

  /** What `detection.get('maturity', 'unknown')` yields: a label string, or `None`. */
  datatype Key = NullKey | Label(name: string)

  /** The value read for a tag, an absent key counting as "unknown". */
  function KeyOf(t: Tag): (k: Key)
    ensures t.Missing? ==> k == Label(Unknown.Name())
    ensures t.Named? ==> k == Label(t.value)
    ensures k == NullKey <==> t.Null?
  {
    match t
    case Missing => Label("unknown")
    case Null => NullKey
    case Named(s) => Label(s)
  }

  /** An axis-aligned box in integer pixel coordinates, `[x1, y1, x2, y2]` in the source. */
  datatype Box = Box(x1: int, y1: int, x2: int, y2: int) {
    function AsList(): (l: seq<int>)
      ensures |l| == 4
    {
      [x1, y1, x2, y2]
    }
  }

  /**
   One detection: 'bbox' (a list that callers may have left with a length other than 4),
   'confidence', 'class', 'class_id', 'area', 'maturity' and 'maturity_confidence'.
   */
  datatype Detection = Detection(
    bbox: seq<int>,
    confidence: Option<real>,
    cls: string,
    classId: Option<int>,
    area: real,
    maturity: Tag,
    maturityConfidence: Option<real>)

  /** The dimensions of the image being analysed, `image.shape[:2]` read as width and height. */
  datatype Frame = Frame(width: nat, height: nat) {
    function Area(): nat {
      width * height
    }
  }
}
