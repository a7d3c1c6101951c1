# Padding masks and text projection (SpeeQ utilities)

This project models the two pure helpers of `utils/utils.py` in the SpeeQ
speech-recognition library, in the Dafny module `Utils` (`utils.dfy`):

- `get_text_list(data)` takes a list of records (dictionaries) and returns the
  transcript field of each, in order. It is modelled as `Utils.GetTextList`
  over a `seq<map<K, V>>`. The key is a parameter because the constant
  `FileKeys.text_key` lives in a module that is not part of this model. Python
  raises `KeyError` at the first record without the key. The model returns
  `KeyError(at)` instead, where `at` is that record's position.
- `get_pad_mask(seq_len, pad_len)` builds the validity mask of a padded
  sequence: `seq_len + pad_len` entries, `true` for the real frames and `false`
  for the padding. This is a validity mask (real versus padded frames) of the
  kind the transducer models take as `speech_mask` and `text_mask`. It is
  modelled as `Utils.PadMask` on unbounded integers, like Python's `int`. `Utils.MaskUpTo` builds the list one iteration of
  `range(seq_len + pad_len)` at a time, and gives `[]` when that range is empty.

## Model

| member | source | states |
|---|---|---|
| `Utils.GetTextList` | utils/utils.py:18-19 | succeeds iff every record has the key; then the result has one entry per record and entry `i` is `data[i][key]` (order kept); otherwise it reports the first record without the key |
| `Utils.GetTextListConcat` | utils/utils.py:18-19 | the projection of `a + b` is the projection of `a` followed by that of `b`; a missing key is reported at its position in `a + b`, the first one in `a` winning |
| `Utils.PadMask` | utils/utils.py:62-63 | the mask has `seq_len + pad_len` entries (none when that sum is not positive) and entry `i` is `true` exactly when `i < seq_len` |
| `Utils.PadMaskCount` | utils/utils.py:62-63 | for any integers, the mask holds `max(0, min(seq_len, seq_len + pad_len))` `true` entries and all its other entries are `false` |
| `Utils.PadMaskLengths` | utils/utils.py:62-63 | for non-negative lengths, the mask has `seq_len + pad_len` entries, exactly `seq_len` of them `true` and `pad_len` of them `false` |
| `Utils.PadMaskPrefixClosed` | utils/utils.py:63 | no `true` entry follows a `false` entry |
| `Utils.PadMaskBlocks` | utils/utils.py:63 | the mask is `seq_len` copies of `true` followed by `pad_len` copies of `false` |
| `Utils.PadMaskNoPadding` | utils/utils.py:63 | with `pad_len = 0` every entry is `true` |
| `Utils.PadMaskAllPadding` | utils/utils.py:63 | with `seq_len = 0` the mask is `pad_len` copies of `false` |
| `Utils.PadMaskInjective` | utils/utils.py:62-63 | the mask determines both `seq_len` and `pad_len`, so different lengths give different masks |

## Left out

- `clear`, `load_json`, `load_text`, `save_json`, `save_text`, `load_csv` (utils/utils.py:11-59): shell commands and file I/O with no logic of their own.
- The `torch.BoolTensor(...)` wrapping of the mask (utils/utils.py:64): a foreign tensor constructor. The model returns the list as `seq<bool>`.
- `GetTextList`: the Python `KeyError` carries the missing key, not the record's position. The model reports the position, which also identifies the record.
- Records are modelled as finite maps. Python dictionaries whose `__getitem__` does more than a lookup are not modelled.
- The transducer models, the convolution output-length formula and the audio augmenters exercised by the tests are not part of this model, because their sources are not among the modelled files.
